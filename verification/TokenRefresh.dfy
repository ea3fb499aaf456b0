/**
 * Refresh-token rotation. Every `await` ends a synchronous segment, so concurrent calls
 * interleave segment by segment; the model's events are those segments.
 *
 * A signed token verifies exactly when its claims were issued. The blacklist is an
 * unknown collaborator: whenever it is asked, it may answer either way.
 */
module TokenRefresh {
  import opened Common

  datatype Record = Record(userId: string, familyId: string, revoked: bool)

  datatype Claims = Claims(tokenId: string, familyId: string, userId: string)

  datatype Failure = BlacklistedToken | UnknownToken | ReuseDetected

  /** Where a call to `rotate` or `issueInitialTokens` is suspended, or how it ended. */
  datatype Call =
    | Screened(claims: Claims, hit: bool)     // the blacklist has answered
    | Found(claims: Claims, known: bool)      // the store has been searched
    | Punishing(claims: Claims)               // the family has been revoked, the error is next
    | Pending(claims: Claims, listed: bool)   // the old token is revoked, the new one not yet saved
    | Saved(claims: Claims)                   // the new record is saved, its token not yet signed
    | Done(result: Result<Claims, Failure>)

  datatype State = State(
    tokens: map<string, Record>,
    calls: map<nat, Call>,
    issued: set<Claims>,
    successions: seq<(string, string)>,       // (old token, new token) of every rotation that saved
    blacklisted: set<string>)                 // every token a rotation has put on the blacklist

  datatype Event =
    | Login(call: nat, userId: string, familyId: string, tokenId: string)
    | Present(call: nat, claims: Claims, hit: bool)
    | Resume(call: nat, freshId: string)
    | RevokeFamily(familyId: string)

  const Initial := State(map[], map[], {}, [], {})

  // ---- The segments -----------------------------------------------------------

  function RevokeAll(tokens: map<string, Record>, familyId: string): map<string, Record> {
    map t | t in tokens ::
      if tokens[t].familyId == familyId then tokens[t].(revoked := true) else tokens[t]
  }

  function RevokeOne(tokens: map<string, Record>, tokenId: string): map<string, Record> {
    if tokenId in tokens then tokens[tokenId := tokens[tokenId].(revoked := true)] else tokens
  }

  function Advance(blacklist: bool, s: State, k: nat, call: Call, freshId: string): State {
    match call
    case Screened(c, hit) =>
      s.(calls := s.calls[k := if hit then Done(Err(BlacklistedToken)) else Found(c, c.tokenId in s.tokens)])
    case Found(c, known) =>
      if !known || c.tokenId !in s.tokens then s.(calls := s.calls[k := Done(Err(UnknownToken))])
      else if s.tokens[c.tokenId].revoked then
        s.(tokens := RevokeAll(s.tokens, c.familyId), calls := s.calls[k := Punishing(c)])
      else
        s.(tokens := RevokeOne(s.tokens, c.tokenId), calls := s.calls[k := Pending(c, false)])
    case Punishing(_) => s.(calls := s.calls[k := Done(Err(ReuseDetected))])
    case Pending(c, listed) =>
      if blacklist && !listed then
        s.(calls := s.calls[k := Pending(c, true)], blacklisted := s.blacklisted + {c.tokenId})
      else
        s.(tokens := s.tokens[freshId := Record(c.userId, c.familyId, false)],
           calls := s.calls[k := Saved(Claims(freshId, c.familyId, c.userId))],
           successions := s.successions + [(c.tokenId, freshId)])
    case Saved(c) => s.(calls := s.calls[k := Done(Ok(c))], issued := s.issued + {c})
    case Done(_) => s
  }

  function Step(blacklist: bool, s: State, e: Event): State {
    match e
    case Login(k, userId, familyId, tokenId) =>
      s.(tokens := s.tokens[tokenId := Record(userId, familyId, false)],
         calls := s.calls[k := Saved(Claims(tokenId, familyId, userId))])
    case Present(k, c, hit) =>
      s.(calls := s.calls[k := if blacklist then Screened(c, hit) else Found(c, c.tokenId in s.tokens)])
    case Resume(k, freshId) => if k in s.calls then Advance(blacklist, s, k, s.calls[k], freshId) else s
    case RevokeFamily(familyId) => s.(tokens := RevokeAll(s.tokens, familyId))
  }

  ghost predicate FamilyUsed(s: State, familyId: string) {
    exists t :: t in s.tokens && s.tokens[t].familyId == familyId
  }

  /** What the environment may do next: new calls and identifiers are fresh, presented claims were issued. */
  ghost predicate Enabled(s: State, e: Event) {
    match e
    case Login(k, _, familyId, tokenId) => k !in s.calls && tokenId !in s.tokens && !FamilyUsed(s, familyId)
    case Present(k, c, _) => k !in s.calls && c in s.issued
    case Resume(k, freshId) => k in s.calls && (s.calls[k].Pending? ==> freshId !in s.tokens)
    case RevokeFamily(_) => true
  }

  // ---- Runs -------------------------------------------------------------------

  function Run(blacklist: bool, s: State, events: seq<Event>): State
    decreases |events|
  {
    if events == [] then s else Run(blacklist, Step(blacklist, s, events[0]), events[1..])
  }

  ghost predicate Feasible(blacklist: bool, s: State, events: seq<Event>)
    decreases |events|
  {
    events == [] || (Enabled(s, events[0]) && Feasible(blacklist, Step(blacklist, s, events[0]), events[1..]))
  }

  // ---- The invariant ----------------------------------------------------------

  predicate Live(s: State, t: string) {
    t in s.tokens && !s.tokens[t].revoked
  }

  predicate InProgress(s: State, k: nat) {
    k in s.calls && s.calls[k].Pending?
  }

  /** The claims name a stored record. */
  predicate Recorded(s: State, c: Claims) {
    && c.tokenId in s.tokens
    && s.tokens[c.tokenId].familyId == c.familyId
    && s.tokens[c.tokenId].userId == c.userId
  }

  predicate CallMatchesStore(s: State, call: Call) {
    match call
    case Found(c, known) => known && Recorded(s, c)
    case Pending(c, _) => Recorded(s, c) && s.tokens[c.tokenId].revoked
    case Done(Ok(c)) => Recorded(s, c)
    case Done(Err(f)) => f != UnknownToken
    case _ => Recorded(s, call.claims)
  }

  ghost predicate ClaimsMatchStore(s: State) {
    && (forall c :: c in s.issued ==> Recorded(s, c))
    && (forall k :: k in s.calls ==> CallMatchesStore(s, s.calls[k]))
  }

  /** What keeps a family alive: an unrevoked token, or a rotation that has yet to save the next one. */
  datatype Holder = Token(tokenId: string) | Rotation(call: nat)

  predicate TokenHolds(s: State, f: string, t: string) {
    Live(s, t) && s.tokens[t].familyId == f
  }

  predicate RotationHolds(s: State, f: string, k: nat) {
    InProgress(s, k) && s.calls[k].claims.familyId == f
  }

  function Holders(s: State, f: string): set<Holder> {
    (set t | t in s.tokens && TokenHolds(s, f, t) :: Token(t))
    + (set k | k in s.calls && RotationHolds(s, f, k) :: Rotation(k))
  }

  lemma HoldersMembers(s: State, f: string)
    ensures forall t :: Token(t) in Holders(s, f) <==> TokenHolds(s, f, t)
    ensures forall k :: Rotation(k) in Holders(s, f) <==> RotationHolds(s, f, k)
  {
  }

  lemma FewerHolders(s: State, s': State, f: string)
    requires forall t :: TokenHolds(s', f, t) ==> TokenHolds(s, f, t)
    requires forall k :: RotationHolds(s', f, k) ==> RotationHolds(s, f, k)
    ensures Holders(s', f) <= Holders(s, f)
  {
  }

  /** One holder may take over from another, never appear beside it. */
  ghost predicate NoMoreHolders(before: set<Holder>, after: set<Holder>) {
    after <= before || exists h, h' :: h in before && after <= before - {h} + {h'}
  }

  lemma NoMoreHoldersCounts(before: set<Holder>, after: set<Holder>)
    requires NoMoreHolders(before, after)
    ensures |after| <= |before|
  {
    if after <= before {
      SubsetSize(after, before);
    } else {
      var h, h' :| h in before && after <= before - {h} + {h'};
      SubsetSize(after, before - {h} + {h'});
    }
  }

  lemma RevokeTakesOver(blacklist: bool, s: State, f: string, k: nat, freshId: string)
    requires ClaimsMatchStore(s) && k in s.calls && s.calls[k].Found? && Live(s, s.calls[k].claims.tokenId)
    ensures NoMoreHolders(Holders(s, f), Holders(Step(blacklist, s, Resume(k, freshId)), f))
  {
    var s' := Step(blacklist, s, Resume(k, freshId));
    var c := s.calls[k].claims;
    assert CallMatchesStore(s, s.calls[k]);
    HoldersMembers(s, f);
    HoldersMembers(s', f);
    if c.familyId == f {
      assert Holders(s', f) <= Holders(s, f) - {Token(c.tokenId)} + {Rotation(k)};
    } else {
      FewerHolders(s, s', f);
    }
  }

  lemma SaveTakesOver(blacklist: bool, s: State, f: string, k: nat, freshId: string)
    requires ClaimsMatchStore(s) && k in s.calls && s.calls[k].Pending? && freshId !in s.tokens
    requires !blacklist || s.calls[k].listed
    ensures NoMoreHolders(Holders(s, f), Holders(Step(blacklist, s, Resume(k, freshId)), f))
  {
    var s' := Step(blacklist, s, Resume(k, freshId));
    HoldersMembers(s, f);
    HoldersMembers(s', f);
    if s.calls[k].claims.familyId == f {
      assert Holders(s', f) <= Holders(s, f) - {Rotation(k)} + {Token(freshId)};
    } else {
      FewerHolders(s, s', f);
    }
  }

  /** No segment adds a holder to a family that already exists. */
  lemma StepAddsNoHolder(blacklist: bool, s: State, e: Event, f: string)
    requires ClaimsMatchStore(s) && Enabled(s, e)
    requires !(e.Login? && e.familyId == f)
    ensures NoMoreHolders(Holders(s, f), Holders(Step(blacklist, s, e), f))
  {
    if e.Resume? {
      var call := s.calls[e.call];
      assert CallMatchesStore(s, call);
      if call.Found? && Live(s, call.claims.tokenId) {
        RevokeTakesOver(blacklist, s, f, e.call, e.freshId);
      } else if call.Pending? && (!blacklist || call.listed) {
        SaveTakesOver(blacklist, s, f, e.call, e.freshId);
      } else {
        FewerHolders(s, Step(blacklist, s, e), f);
      }
    } else {
      FewerHolders(s, Step(blacklist, s, e), f);
    }
  }

  /** Per family: live tokens and rotations between revoke and save together number at most one. */
  ghost predicate OneHolder(s: State) {
    forall f :: |Holders(s, f)| <= 1
  }

  ghost predicate SuccessionsOnce(s: State) {
    && (forall i, j :: 0 <= i < j < |s.successions| ==> s.successions[i].0 != s.successions[j].0)
    && (forall i :: 0 <= i < |s.successions| ==> s.successions[i].0 in s.tokens && !Live(s, s.successions[i].0))
    && (forall i, k :: 0 <= i < |s.successions| && InProgress(s, k) ==> s.successions[i].0 != s.calls[k].claims.tokenId)
  }

  ghost predicate Inv(s: State) {
    ClaimsMatchStore(s) && OneHolder(s) && SuccessionsOnce(s)
  }

  /** Segments only add records and only ever set the revoked flag. */
  ghost predicate StoreGrows(s: State, s': State) {
    forall t :: t in s.tokens ==>
      t in s'.tokens && s'.tokens[t].(revoked := s.tokens[t].revoked) == s.tokens[t]
      && (s.tokens[t].revoked ==> s'.tokens[t].revoked)
  }

  lemma StepGrowsStore(blacklist: bool, s: State, e: Event)
    requires Enabled(s, e)
    ensures StoreGrows(s, Step(blacklist, s, e))
  {
  }

  lemma StepKeepsClaims(blacklist: bool, s: State, e: Event)
    requires ClaimsMatchStore(s) && Enabled(s, e)
    ensures ClaimsMatchStore(Step(blacklist, s, e))
  {
    var s' := Step(blacklist, s, e);
    StepGrowsStore(blacklist, s, e);
    if e.Resume? {
      AdvanceMatchesStore(blacklist, s, e.call, e.freshId);
    }
    forall k | k in s'.calls ensures CallMatchesStore(s', s'.calls[k]) {
      if !e.RevokeFamily? && k == e.call {
        if !e.Resume? { NewCallMatches(blacklist, s, e); }
      } else {
        MatchSurvives(s, s', s.calls[k]);
      }
    }
  }

  lemma MatchSurvives(s: State, s': State, call: Call)
    requires StoreGrows(s, s') && CallMatchesStore(s, call)
    ensures CallMatchesStore(s', call)
  {
  }

  lemma NewCallMatches(blacklist: bool, s: State, e: Event)
    requires ClaimsMatchStore(s) && Enabled(s, e) && (e.Login? || e.Present?)
    ensures
      var s' := Step(blacklist, s, e);
      e.call in s'.calls && CallMatchesStore(s', s'.calls[e.call])
  {
  }

  lemma AdvanceMatchesStore(blacklist: bool, s: State, k: nat, freshId: string)
    requires k in s.calls && CallMatchesStore(s, s.calls[k]) && (s.calls[k].Pending? ==> freshId !in s.tokens)
    requires forall c :: c in s.issued ==> Recorded(s, c)
    ensures
      var s' := Advance(blacklist, s, k, s.calls[k], freshId);
      CallMatchesStore(s', s'.calls[k]) && forall c :: c in s'.issued ==> Recorded(s', c)
  {
  }

  lemma UnusedHasNoRotation(s: State, f: string, k: nat)
    requires ClaimsMatchStore(s) && !FamilyUsed(s, f)
    ensures !RotationHolds(s, f, k)
  {
    if k in s.calls { assert CallMatchesStore(s, s.calls[k]); }
  }

  lemma LoginIsAlone(blacklist: bool, s: State, e: Event)
    requires ClaimsMatchStore(s) && Enabled(s, e) && e.Login?
    ensures Holders(Step(blacklist, s, e), e.familyId) == {Token(e.tokenId)}
  {
    var f, s' := e.familyId, Step(blacklist, s, e);
    HoldersMembers(s', f);
    forall k ensures !RotationHolds(s', f, k) { UnusedHasNoRotation(s, f, k); }
    assert TokenHolds(s', f, e.tokenId);
    forall h ensures h in Holders(s', f) <==> h == Token(e.tokenId) {
      match h
      case Token(t) => assert TokenHolds(s, f, t) ==> FamilyUsed(s, f);
      case Rotation(k) =>
    }
  }

  lemma StepKeepsOneHolder(blacklist: bool, s: State, e: Event)
    requires ClaimsMatchStore(s) && OneHolder(s) && Enabled(s, e)
    ensures OneHolder(Step(blacklist, s, e))
  {
    var s' := Step(blacklist, s, e);
    forall f ensures |Holders(s', f)| <= 1 {
      if e.Login? && e.familyId == f {
        LoginIsAlone(blacklist, s, e);
      } else {
        StepAddsNoHolder(blacklist, s, e, f);
        NoMoreHoldersCounts(Holders(s, f), Holders(s', f));
      }
    }
  }

  /** Two rotations between revoke and save never concern the same token. */
  lemma RotationsAreApart(s: State, k: nat, l: nat)
    requires ClaimsMatchStore(s) && OneHolder(s) && InProgress(s, k) && InProgress(s, l)
    requires s.calls[k].claims.tokenId == s.calls[l].claims.tokenId
    ensures k == l
  {
    assert CallMatchesStore(s, s.calls[k]) && CallMatchesStore(s, s.calls[l]);
    var f := s.calls[k].claims.familyId;
    HoldersMembers(s, f);
    assert {Rotation(k), Rotation(l)} <= Holders(s, f);
    SubsetSize({Rotation(k), Rotation(l)}, Holders(s, f));
    assert k != l ==> |{Rotation(k), Rotation(l)}| == 2;
  }

  lemma StepKeepsSuccessions(blacklist: bool, s: State, e: Event)
    requires Inv(s) && Enabled(s, e)
    ensures SuccessionsOnce(Step(blacklist, s, e))
  {
    StepGrowsStore(blacklist, s, e);
    if e.Resume? {
      assert CallMatchesStore(s, s.calls[e.call]);
      if s.calls[e.call].Pending? {
        forall k | InProgress(s, k) && s.calls[k].claims.tokenId == s.calls[e.call].claims.tokenId ensures k == e.call {
          RotationsAreApart(s, k, e.call);
        }
      }
    }
  }

  lemma StepKeepsInv(blacklist: bool, s: State, e: Event)
    requires Inv(s) && Enabled(s, e)
    ensures Inv(Step(blacklist, s, e))
  {
    StepKeepsClaims(blacklist, s, e);
    StepKeepsOneHolder(blacklist, s, e);
    StepKeepsSuccessions(blacklist, s, e);
  }

  // ---- Safety over whole runs -------------------------------------------------

  /** Every reachable state satisfies the invariant: one holder per family, each token rotated at most once. */
  lemma {:induction false} RunKeepsInv(blacklist: bool, s: State, events: seq<Event>)
    requires Inv(s) && Feasible(blacklist, s, events)
    ensures Inv(Run(blacklist, s, events))
    decreases |events|
  {
    if events != [] {
      StepKeepsInv(blacklist, s, events[0]);
      RunKeepsInv(blacklist, Step(blacklist, s, events[0]), events[1..]);
    }
  }

  lemma InitiallyInv()
    ensures Inv(Initial)
  {
    forall f ensures |Holders(Initial, f)| <= 1 { assert Holders(Initial, f) == {}; }
  }

  /** From an empty store, whatever interleaving follows, a family never has two live descendants. */
  lemma OneLiveTokenPerFamily(blacklist: bool, events: seq<Event>, t: string, u: string)
    requires Feasible(blacklist, Initial, events)
    requires var s := Run(blacklist, Initial, events);
             Live(s, t) && Live(s, u) && s.tokens[t].familyId == s.tokens[u].familyId
    ensures t == u
  {
    var s := Run(blacklist, Initial, events);
    InitiallyInv();
    RunKeepsInv(blacklist, Initial, events);
    var f := s.tokens[t].familyId;
    HoldersMembers(s, f);
    assert {Token(t), Token(u)} <= Holders(s, f);
    SubsetSize({Token(t), Token(u)}, Holders(s, f));
    assert t != u ==> |{Token(t), Token(u)}| == 2;
  }

  /** Whatever interleaving follows, a token is exchanged at most once. */
  lemma TokenRotatesAtMostOnce(blacklist: bool, events: seq<Event>, i: nat, j: nat)
    requires Feasible(blacklist, Initial, events)
    requires var s := Run(blacklist, Initial, events);
             i < |s.successions| && j < |s.successions| && s.successions[i].0 == s.successions[j].0
    ensures i == j
  {
    InitiallyInv();
    RunKeepsInv(blacklist, Initial, events);
  }

  /** A dead family stays dead, whatever is still in flight elsewhere. */
  lemma {:induction false} DeadFamilyStaysDead(blacklist: bool, s: State, events: seq<Event>, f: string)
    requires Inv(s) && Feasible(blacklist, s, events)
    requires FamilyUsed(s, f) && Holders(s, f) == {}
    ensures Holders(Run(blacklist, s, events), f) == {}
    decreases |events|
  {
    if events != [] {
      var s' := Step(blacklist, s, events[0]);
      StepKeepsInv(blacklist, s, events[0]);
      StepGrowsStore(blacklist, s, events[0]);
      StepAddsNoHolder(blacklist, s, events[0], f);
      var t :| t in s.tokens && s.tokens[t].familyId == f;
      assert t in s'.tokens && s'.tokens[t].familyId == f;
      DeadFamilyStaysDead(blacklist, s', events[1..], f);
    }
  }

  /** What goes on the blacklist is revoked; with a blacklist, no token is exchanged before it is on it. */
  ghost predicate ListedFirst(blacklist: bool, s: State) {
    && (forall t :: t in s.blacklisted ==> t in s.tokens && !Live(s, t))
    && (blacklist ==>
          && (forall k :: InProgress(s, k) && s.calls[k].listed ==> s.calls[k].claims.tokenId in s.blacklisted)
          && (forall i :: 0 <= i < |s.successions| ==> s.successions[i].0 in s.blacklisted))
  }

  lemma StepListsFirst(blacklist: bool, s: State, e: Event)
    requires ClaimsMatchStore(s) && Enabled(s, e) && ListedFirst(blacklist, s)
    ensures ListedFirst(blacklist, Step(blacklist, s, e))
  {
    if e.Resume? { assert CallMatchesStore(s, s.calls[e.call]); }
  }

  lemma {:induction false} RunListsFirst(blacklist: bool, s: State, events: seq<Event>)
    requires Inv(s) && Feasible(blacklist, s, events) && ListedFirst(blacklist, s)
    ensures ListedFirst(blacklist, Run(blacklist, s, events))
    decreases |events|
  {
    if events != [] {
      StepKeepsInv(blacklist, s, events[0]);
      StepListsFirst(blacklist, s, events[0]);
      RunListsFirst(blacklist, Step(blacklist, s, events[0]), events[1..]);
    }
  }

  /** Whatever interleaving follows, only revoked tokens are put on the blacklist, and every exchanged one is. */
  lemma ExchangedTokensAreListed(blacklist: bool, events: seq<Event>)
    requires Feasible(blacklist, Initial, events)
    ensures ListedFirst(blacklist, Run(blacklist, Initial, events))
  {
    InitiallyInv();
    RunListsFirst(blacklist, Initial, events);
  }

  // ---- Whose family a segment is about ----------------------------------------

  /** The segment starts, rotates, punishes or revokes family `f`. */
  predicate Concerns(s: State, e: Event, f: string) {
    match e
    case Login(_, _, familyId, _) => familyId == f
    case Present(_, _, _) => false
    case Resume(k, _) => k in s.calls && !s.calls[k].Done? && s.calls[k].claims.familyId == f
    case RevokeFamily(familyId) => familyId == f
  }

  /** No segment touches a family it is not about: its live tokens and rotations stay exactly as they are. */
  lemma OtherFamiliesAreSpared(blacklist: bool, s: State, e: Event, f: string)
    requires ClaimsMatchStore(s) && Enabled(s, e) && !Concerns(s, e, f)
    ensures Holders(Step(blacklist, s, e), f) == Holders(s, f)
  {
    if e.Resume? { assert CallMatchesStore(s, s.calls[e.call]); }
    FewerHolders(s, Step(blacklist, s, e), f);
    FewerHolders(Step(blacklist, s, e), s, f);
  }

  /** A login leaves its family with one holder, the live token handed out. */
  lemma LoginStartsAFamily(blacklist: bool, s: State, k: nat, userId: string, f: string, t: string, freshId: string)
    requires Inv(s) && Enabled(s, Login(k, userId, f, t))
    ensures
      var s' := Step(blacklist, Step(blacklist, s, Login(k, userId, f, t)), Resume(k, freshId));
      && Holders(s', f) == {Token(t)}
      && s'.tokens == s.tokens[t := Record(userId, f, false)]
      && Claims(t, f, userId) in s'.issued && s'.calls == s.calls[k := Done(Ok(Claims(t, f, userId)))]
  {
    var s1 := Step(blacklist, s, Login(k, userId, f, t));
    var s' := Step(blacklist, s1, Resume(k, freshId));
    assert s'.calls == s.calls[k := Done(Ok(Claims(t, f, userId)))];
    LoginIsAlone(blacklist, s, Login(k, userId, f, t));
    FewerHolders(s1, s', f);
    FewerHolders(s', s1, f);
  }

  // ---- Revoking a family ------------------------------------------------------

  /**
   * Revoking a family leaves it dead exactly when none of its rotations is between revoke
   * and save: such a rotation still saves a live token afterwards.
   */
  lemma RevokeFamilyKillsExactly(blacklist: bool, s: State, f: string)
    ensures Holders(Step(blacklist, s, RevokeFamily(f)), f) == {} <==> forall k :: !RotationHolds(s, f, k)
  {
    var s' := Step(blacklist, s, RevokeFamily(f));
    HoldersMembers(s', f);
    forall k ensures RotationHolds(s', f, k) <==> RotationHolds(s, f, k) {}
    if forall k :: !RotationHolds(s, f, k) {
      assert forall h :: h in Holders(s', f) ==> h.Token?;
    }
  }

  /** No continuation from `s` ever has a live token of the family. */
  ghost predicate NeverLiveAgain(blacklist: bool, s: State, f: string) {
    forall events, t :: Feasible(blacklist, s, events) ==> !TokenHolds(Run(blacklist, s, events), f, t)
  }

  /** Revoking a used family is final, whatever comes later, exactly when none of its rotations is in progress. */
  lemma RevocationIsFinalExactly(blacklist: bool, s: State, f: string)
    requires Inv(s) && FamilyUsed(s, f)
    ensures NeverLiveAgain(blacklist, Step(blacklist, s, RevokeFamily(f)), f) <==> forall k :: !RotationHolds(s, f, k)
  {
    var s' := Step(blacklist, s, RevokeFamily(f));
    RevokeFamilyKillsExactly(blacklist, s, f);
    StepKeepsInv(blacklist, s, RevokeFamily(f));
    var t :| t in s.tokens && s.tokens[t].familyId == f;
    assert t in s'.tokens && s'.tokens[t].familyId == f;
    if k :| RotationHolds(s, f, k) {
      assert RotationHolds(s', f, k);
      RotationOutruns(blacklist, s', f, k);
    } else {
      DeadIsFinal(blacklist, s', f);
    }
  }

  lemma DeadIsFinal(blacklist: bool, s: State, f: string)
    requires Inv(s) && FamilyUsed(s, f) && Holders(s, f) == {}
    ensures NeverLiveAgain(blacklist, s, f)
  {
    forall events, t | Feasible(blacklist, s, events) ensures !TokenHolds(Run(blacklist, s, events), f, t) {
      DeadFamilyStaysDead(blacklist, s, events, f);
      HoldersMembers(Run(blacklist, s, events), f);
    }
  }

  /** A rotation in progress can always go on to save a live token. */
  lemma RotationOutruns(blacklist: bool, s: State, f: string, k: nat)
    requires RotationHolds(s, f, k)
    ensures !NeverLiveAgain(blacklist, s, f)
  {
    var x := UnusedId(s.tokens.Keys);
    var e := Resume(k, x);
    var s1 := Step(blacklist, s, e);
    if blacklist && !s.calls[k].listed {
      var s2 := Step(blacklist, s1, e);
      RunOne(blacklist, s1, e);
      assert [e, e][1..] == [e];
      assert Feasible(blacklist, s, [e, e]) && Run(blacklist, s, [e, e]) == s2 && TokenHolds(s2, f, x);
    } else {
      RunOne(blacklist, s, e);
      assert TokenHolds(Run(blacklist, s, [e]), f, x);
    }
  }

  lemma RunOne(blacklist: bool, s: State, e: Event)
    requires Enabled(s, e)
    ensures Feasible(blacklist, s, [e]) && Run(blacklist, s, [e]) == Step(blacklist, s, e)
  {
    assert [e][1..] == [];
  }

  lemma {:induction false} LongerThanAll(ids: set<string>) returns (n: nat)
    ensures forall x :: x in ids ==> |x| < n
  {
    n := 0;
    if ids != {} {
      var x :| x in ids;
      n := LongerThanAll(ids - {x});
      n := Max(n, |x| + 1);
    }
  }

  lemma UnusedId(ids: set<string>) returns (x: string)
    ensures x !in ids
  {
    var n := LongerThanAll(ids);
    x := seq(n, _ => 'x');
  }

  /** The race that defeats it: log in, start rotating, revoke the family, let the rotation go on. */
  lemma RevocationCanBeOutrun()
    ensures
      var c := Claims("t1", "f", "u");
      var events := [Login(0, "u", "f", "t1"), Resume(0, "x"), Present(1, c, false), Resume(1, "x"),
                     RevokeFamily("f"), Resume(1, "t2")];
      Feasible(false, Initial, events) && Live(Run(false, Initial, events), "t2")
  {
    var c := Claims("t1", "f", "u");
    var s1 := Step(false, Initial, Login(0, "u", "f", "t1"));
    var s2 := Step(false, s1, Resume(0, "x"));
    var s3 := Step(false, s2, Present(1, c, false));
    var s4 := Step(false, s3, Resume(1, "x"));
    var s5 := Step(false, s4, RevokeFamily("f"));
    var s6 := Step(false, s5, Resume(1, "t2"));
    assert Enabled(s4, RevokeFamily("f")) && Enabled(s5, Resume(1, "t2")) && Live(s6, "t2");
    RunSplits(s5, [], Resume(1, "t2"));
    RunSplits(s4, [Resume(1, "t2")], RevokeFamily("f"));
    RunSplits(s3, [RevokeFamily("f"), Resume(1, "t2")], Resume(1, "x"));
    RunSplits(s2, [Resume(1, "x"), RevokeFamily("f"), Resume(1, "t2")], Present(1, c, false));
    RunSplits(s1, [Present(1, c, false), Resume(1, "x"), RevokeFamily("f"), Resume(1, "t2")], Resume(0, "x"));
    RunSplits(Initial, [Resume(0, "x"), Present(1, c, false), Resume(1, "x"), RevokeFamily("f"), Resume(1, "t2")],
              Login(0, "u", "f", "t1"));
  }

  lemma RunSplits(s: State, rest: seq<Event>, e: Event)
    requires Enabled(s, e) && Feasible(false, Step(false, s, e), rest)
    ensures Feasible(false, s, [e] + rest)
    ensures Run(false, s, [e] + rest) == Run(false, Step(false, s, e), rest)
  {
    assert ([e] + rest)[1..] == rest;
  }

  // ---- One undisturbed call ---------------------------------------------------

  /** The next `n` segments all belong to call `k`. */
  function ResumeTimes(blacklist: bool, s: State, k: nat, freshId: string, n: nat): State
    decreases n
  {
    if n == 0 then s else ResumeTimes(blacklist, Step(blacklist, s, Resume(k, freshId)), k, freshId, n - 1)
  }

  /** `rotate` with nothing else running: presenting the token and then all five of its later segments. */
  function Rotate(blacklist: bool, s: State, k: nat, c: Claims, hit: bool, freshId: string): State {
    ResumeTimes(blacklist, Step(blacklist, s, Present(k, c, hit)), k, freshId, 5)
  }

  /** A live token the blacklist does not know is exchanged for one new token, the only live one of its family. */
  lemma LiveTokenRotates(blacklist: bool, s: State, k: nat, c: Claims, hit: bool, freshId: string)
    requires Inv(s) && Enabled(s, Present(k, c, hit)) && freshId !in s.tokens
    requires Live(s, c.tokenId) && !(blacklist && hit)
    ensures
      var s' := Rotate(blacklist, s, k, c, hit, freshId);
      var next := Claims(freshId, c.familyId, c.userId);
      && s'.calls == s.calls[k := Done(Ok(next))]
      && next in s'.issued
      && s'.tokens ==
           s.tokens[c.tokenId := s.tokens[c.tokenId].(revoked := true)][freshId := Record(c.userId, c.familyId, false)]
      && s'.successions == s.successions + [(c.tokenId, freshId)]
      && s'.blacklisted == s.blacklisted + if blacklist then {c.tokenId} else {}
  {
    var s1 := Step(blacklist, s, Present(k, c, hit));
    var s2 := if blacklist then Step(blacklist, s1, Resume(k, freshId)) else s1;
    assert s2.calls[k] == Found(c, true) && s2.tokens == s.tokens;
    assert s2.issued == s.issued && s2.successions == s.successions && s2.blacklisted == s.blacklisted;
    var s3 := Step(blacklist, s2, Resume(k, freshId));
    assert s3.calls[k] == Pending(c, false);
    var s4 := if blacklist then Step(blacklist, s3, Resume(k, freshId)) else s3;
    var s5 := Step(blacklist, s4, Resume(k, freshId));
    assert s5.calls[k] == Saved(Claims(freshId, c.familyId, c.userId));
    var s6 := Step(blacklist, s5, Resume(k, freshId));
    assert s6.calls[k].Done?;
    Unroll(blacklist, s5, k, freshId);
    if blacklist {
      assert ResumeTimes(blacklist, s3, k, freshId, 3) == s6;
      assert ResumeTimes(blacklist, s1, k, freshId, 5) == s6;
    } else {
      assert ResumeTimes(blacklist, s3, k, freshId, 4) == s6;
      assert ResumeTimes(blacklist, s1, k, freshId, 5) == s6;
    }
    assert s6.calls == s.calls[k := Done(Ok(Claims(freshId, c.familyId, c.userId)))];
  }

  /** After such a rotation the new token is the one thing keeping the family alive. */
  lemma RotationHandsOver(blacklist: bool, s: State, k: nat, c: Claims, hit: bool, freshId: string)
    requires Inv(s) && Enabled(s, Present(k, c, hit)) && freshId !in s.tokens
    requires Live(s, c.tokenId) && !(blacklist && hit)
    ensures Holders(Rotate(blacklist, s, k, c, hit, freshId), c.familyId) == {Token(freshId)}
  {
    LiveTokenRotates(blacklist, s, k, c, hit, freshId);
    TokenTakesOver(s, Rotate(blacklist, s, k, c, hit, freshId), k, c, freshId);
  }

  lemma TokenTakesOver(s: State, s': State, k: nat, c: Claims, freshId: string)
    requires Inv(s) && Live(s, c.tokenId) && Recorded(s, c) && freshId !in s.tokens
    requires s'.tokens ==
      s.tokens[c.tokenId := s.tokens[c.tokenId].(revoked := true)][freshId := Record(c.userId, c.familyId, false)]
    requires k in s'.calls && s'.calls == s.calls[k := s'.calls[k]] && s'.calls[k].Done?
    ensures Holders(s', c.familyId) == {Token(freshId)}
  {
    var f := c.familyId;
    HoldersMembers(s, f);
    HoldersMembers(s', f);
    assert Token(c.tokenId) in Holders(s, f) && Token(freshId) in Holders(s', f);
    forall h | h in Holders(s', f) ensures h == Token(freshId) {
      if h != Token(freshId) {
        assert h in Holders(s, f) && h != Token(c.tokenId);
        SubsetSize({h, Token(c.tokenId)}, Holders(s, f));
      }
    }
  }

  lemma Unroll(blacklist: bool, s: State, k: nat, freshId: string)
    requires k in s.calls && s.calls[k].Saved?
    ensures ResumeTimes(blacklist, s, k, freshId, 1) == Step(blacklist, s, Resume(k, freshId))
    ensures ResumeTimes(blacklist, s, k, freshId, 3) == Step(blacklist, s, Resume(k, freshId))
  {
    var s' := Step(blacklist, s, Resume(k, freshId));
    assert ResumeTimes(blacklist, s', k, freshId, 1) == s';
    assert ResumeTimes(blacklist, s', k, freshId, 2) == s';
  }

  /**
   * Presenting a revoked token. Unless a configured blacklist answers first, the reuse is detected
   * and the whole family revoked. If the blacklist does answer, the call fails earlier and no token
   * is touched.
   */
  lemma ReuseIsPunished(blacklist: bool, s: State, k: nat, c: Claims, hit: bool, freshId: string)
    requires Inv(s) && Enabled(s, Present(k, c, hit)) && !Live(s, c.tokenId)
    ensures
      var s' := Rotate(blacklist, s, k, c, hit, freshId);
      if blacklist && hit then s' == s.(calls := s.calls[k := Done(Err(BlacklistedToken))])
      else s' == s.(tokens := RevokeAll(s.tokens, c.familyId), calls := s.calls[k := Done(Err(ReuseDetected))])
  {
    var s1 := Step(blacklist, s, Present(k, c, hit));
    if blacklist && hit {
      var s2 := Step(blacklist, s1, Resume(k, freshId));
      Idle(blacklist, s2, k, freshId, 4);
      assert s2.calls == s.calls[k := Done(Err(BlacklistedToken))];
    } else {
      var s2 := if blacklist then Step(blacklist, s1, Resume(k, freshId)) else s1;
      assert s2.calls[k] == Found(c, true);
      var s3 := Step(blacklist, s2, Resume(k, freshId));
      assert s3.calls[k] == Punishing(c);
      var s4 := Step(blacklist, s3, Resume(k, freshId));
      Idle(blacklist, s4, k, freshId, if blacklist then 2 else 3);
      assert ResumeTimes(blacklist, s2, k, freshId, if blacklist then 4 else 5) == s4;
      assert s4.calls == s.calls[k := Done(Err(ReuseDetected))];
    }
  }

  /** A token the blacklist knows is refused, live or not, and nothing else changes. */
  lemma BlacklistedTokenIsRefused(s: State, k: nat, c: Claims, freshId: string)
    requires Inv(s) && Enabled(s, Present(k, c, true))
    ensures Rotate(true, s, k, c, true, freshId) == s.(calls := s.calls[k := Done(Err(BlacklistedToken))])
  {
    var s2 := Step(true, Step(true, s, Present(k, c, true)), Resume(k, freshId));
    Idle(true, s2, k, freshId, 4);
    assert s2.calls == s.calls[k := Done(Err(BlacklistedToken))];
  }

  /**
   * So a blacklist that answers truthfully hides the reuse of every exchanged token: such a token is on it, the call
   * fails before the store is searched, and the family goes on.
   */
  lemma TruthfulBlacklistHidesReuse(events: seq<Event>, i: nat, k: nat, c: Claims, freshId: string)
    requires Feasible(true, Initial, events)
    requires var s := Run(true, Initial, events);
             i < |s.successions| && s.successions[i].0 == c.tokenId && k !in s.calls && c in s.issued
    ensures
      var s := Run(true, Initial, events);
      Rotate(true, s, k, c, c.tokenId in s.blacklisted, freshId)
        == s.(calls := s.calls[k := Done(Err(BlacklistedToken))])
  {
    ExchangedTokensAreListed(true, events);
    InitiallyInv();
    RunKeepsInv(true, Initial, events);
    BlacklistedTokenIsRefused(Run(true, Initial, events), k, c, freshId);
  }

  /** A signed token the store has no record of is refused as unknown, unless the blacklist answers first. */
  lemma UnknownTokenIsRefused(blacklist: bool, s: State, k: nat, c: Claims, hit: bool, freshId: string)
    requires k !in s.calls && c.tokenId !in s.tokens && !(blacklist && hit)
    ensures Rotate(blacklist, s, k, c, hit, freshId) == s.(calls := s.calls[k := Done(Err(UnknownToken))])
  {
    var s1 := Step(blacklist, s, Present(k, c, hit));
    var s2 := if blacklist then Step(blacklist, s1, Resume(k, freshId)) else s1;
    assert s2.calls[k] == Found(c, false);
    var s3 := Step(blacklist, s2, Resume(k, freshId));
    assert s3.calls == s.calls[k := Done(Err(UnknownToken))];
    Idle(blacklist, s3, k, freshId, if blacklist then 3 else 4);
    assert ResumeTimes(blacklist, s2, k, freshId, if blacklist then 4 else 5) == s3;
  }

  /** Detected reuse leaves the family dead exactly when none of its rotations was in progress. */
  lemma ReuseKillsFamilyExactly(blacklist: bool, s: State, k: nat, c: Claims, hit: bool, freshId: string)
    requires Inv(s) && Enabled(s, Present(k, c, hit)) && !Live(s, c.tokenId) && !(blacklist && hit)
    ensures Holders(Rotate(blacklist, s, k, c, hit, freshId), c.familyId) == {}
       <==> forall j :: !RotationHolds(s, c.familyId, j)
  {
    ReuseIsPunished(blacklist, s, k, c, hit, freshId);
    RevokeFamilyKillsExactly(blacklist, s, c.familyId);
    var s', dead := Rotate(blacklist, s, k, c, hit, freshId), Step(blacklist, s, RevokeFamily(c.familyId));
    FewerHolders(s', dead, c.familyId);
    FewerHolders(dead, s', c.familyId);
  }

  // ---- A blacklisted token among other calls ----------------------------------

  /** The blacklist has answered call `k` with a hit, or the call has failed because of it. */
  predicate Barred(s: State, k: nat, c: Claims) {
    k in s.calls && (s.calls[k] == Screened(c, true) || s.calls[k] == Done(Err(BlacklistedToken)))
  }

  lemma {:induction false} StaysBarred(blacklist: bool, s: State, events: seq<Event>, k: nat, c: Claims)
    requires Barred(s, k, c) && Feasible(blacklist, s, events)
    ensures Barred(Run(blacklist, s, events), k, c)
    decreases |events|
  {
    if events != [] {
      StaysBarred(blacklist, Step(blacklist, s, events[0]), events[1..], k, c);
    }
  }

  /**
   * However other calls interleave, a call told of a hit never gets as far as the store: whenever it is resumed it
   * fails, and no token, claim, exchange or blacklist entry comes of it.
   */
  lemma BlacklistHitIsFinal(blacklist: bool, s: State, events: seq<Event>, k: nat, c: Claims, freshId: string)
    requires Barred(s, k, c) && Feasible(blacklist, s, events)
    ensures
      var t := Run(blacklist, s, events);
      && Barred(t, k, c)
      && Step(blacklist, t, Resume(k, freshId)) == t.(calls := t.calls[k := Done(Err(BlacklistedToken))])
  {
    StaysBarred(blacklist, s, events, k, c);
    var t := Run(blacklist, s, events);
    assert t.calls[k] == Done(Err(BlacklistedToken)) ==> t.calls[k := Done(Err(BlacklistedToken))] == t.calls;
  }

  // ---- Reuse among other calls ------------------------------------------------

  ghost predicate NoResume(events: seq<Event>, k: nat) {
    forall i :: 0 <= i < |events| ==> !(events[i].Resume? && events[i].call == k)
  }

  /** A token once revoked stays so, and a suspended call stays as it is while others run. */
  lemma StepLeavesReuse(blacklist: bool, s: State, e: Event, k: nat, t: string)
    requires Enabled(s, e) && k in s.calls && t in s.tokens && !Live(s, t) && !(e.Resume? && e.call == k)
    ensures
      var s' := Step(blacklist, s, e);
      k in s'.calls && s'.calls[k] == s.calls[k] && t in s'.tokens && !Live(s', t)
  {
  }

  /** However many segments of other calls come in between, a call that has found a revoked token still faces it. */
  lemma {:induction false} ReuseCannotBeMissed(blacklist: bool, s: State, events: seq<Event>, k: nat)
    requires Inv(s) && k in s.calls && s.calls[k].Found? && !Live(s, s.calls[k].claims.tokenId)
    requires Feasible(blacklist, s, events) && NoResume(events, k)
    ensures
      var s' := Run(blacklist, s, events);
      Inv(s') && k in s'.calls && s'.calls[k] == s.calls[k] && !Live(s', s.calls[k].claims.tokenId)
    decreases |events|
  {
    if events != [] {
      StepKeepsInv(blacklist, s, events[0]);
      StepLeavesReuse(blacklist, s, events[0], k, s.calls[k].claims.tokenId);
      assert forall i :: 0 <= i < |events[1..]| ==> events[1..][i] == events[i + 1];
      ReuseCannotBeMissed(blacklist, Step(blacklist, s, events[0]), events[1..], k);
    }
  }

  /** The segment that detects reuse revokes the family, and is final exactly when no rotation of it is in progress. */
  lemma ReuseSegmentKillsExactly(blacklist: bool, s: State, k: nat, freshId: string)
    requires Inv(s) && k in s.calls && s.calls[k].Found? && !Live(s, s.calls[k].claims.tokenId)
    ensures
      var c, s' := s.calls[k].claims, Step(blacklist, s, Resume(k, freshId));
      && s'.tokens == RevokeAll(s.tokens, c.familyId) && s'.calls == s.calls[k := Punishing(c)]
      && (NeverLiveAgain(blacklist, s', c.familyId) <==> forall j :: !RotationHolds(s, c.familyId, j))
  {
    var f, s' := s.calls[k].claims.familyId, Step(blacklist, s, Resume(k, freshId));
    var dead := Step(blacklist, s, RevokeFamily(f));
    StepKeepsInv(blacklist, s, Resume(k, freshId));
    forall j ensures RotationHolds(s', f, j) <==> RotationHolds(s, f, j) {}
    if j :| RotationHolds(s, f, j) {
      assert RotationHolds(s', f, j);
      RotationOutruns(blacklist, s', f, j);
    } else {
      RevokeFamilyKillsExactly(blacklist, s, f);
      FewerHolders(dead, s', f);
      var t := s.calls[k].claims.tokenId;
      assert Recorded(s, s.calls[k].claims) && t in s'.tokens && s'.tokens[t].familyId == f;
      DeadIsFinal(blacklist, s', f);
    }
  }

  /**
   * Reuse ends the family: once a call has found a revoked token, and whatever else is interleaved before and after
   * its next segment, that segment leaves the family without live tokens for ever, exactly when no rotation of it is
   * in progress at that moment.
   */
  lemma ReuseEndsTheFamilyExactly(blacklist: bool, s: State, before: seq<Event>, k: nat, freshId: string)
    requires Inv(s) && k in s.calls && s.calls[k].Found? && !Live(s, s.calls[k].claims.tokenId)
    requires Feasible(blacklist, s, before) && NoResume(before, k)
    ensures
      var c, t := s.calls[k].claims, Run(blacklist, s, before);
      var t' := Step(blacklist, t, Resume(k, freshId));
      && k in t'.calls && t'.calls[k] == Punishing(c)
      && (NeverLiveAgain(blacklist, t', c.familyId) <==> forall j :: !RotationHolds(t, c.familyId, j))
  {
    ReuseCannotBeMissed(blacklist, s, before, k);
    ReuseSegmentKillsExactly(blacklist, Run(blacklist, s, before), k, freshId);
  }

  lemma {:induction false} Idle(blacklist: bool, s: State, k: nat, freshId: string, n: nat)
    requires k in s.calls && s.calls[k].Done?
    ensures ResumeTimes(blacklist, s, k, freshId, n) == s
  {
    if n > 0 { Idle(blacklist, s, k, freshId, n - 1); }
  }
}
