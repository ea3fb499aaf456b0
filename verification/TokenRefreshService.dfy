/**
 * The mutable store and service behind the rotation model. Each method is one synchronous
 * segment; `calls` holds what the runtime keeps for every suspended call.
 */
module TokenRefreshService {
  import opened Common
  import T = TokenRefresh

  class RefreshTokenRecord {
    const tokenId: string
    const userId: string
    const familyId: string
    var revoked: bool

    constructor (tokenId: string, userId: string, familyId: string)
      ensures this.tokenId == tokenId && this.userId == userId && this.familyId == familyId && !revoked
    {
      this.tokenId, this.userId, this.familyId, revoked := tokenId, userId, familyId, false;
    }
  }

  class InMemoryRefreshTokenStore {
    var tokens: map<string, RefreshTokenRecord>

    ghost predicate Valid()
      reads this
    {
      forall t :: t in tokens ==> tokens[t].tokenId == t
    }

    ghost function View(): map<string, T.Record>
      reads this, tokens.Values
    {
      map t | t in tokens :: T.Record(tokens[t].userId, tokens[t].familyId, tokens[t].revoked)
    }

    constructor ()
      ensures Valid() && tokens == map[] && View() == map[]
    {
      tokens := map[];
    }

    method Save(record: RefreshTokenRecord)
      requires Valid()
      modifies this
      ensures Valid() && tokens == old(tokens)[record.tokenId := record]
      ensures View() == old(View())[record.tokenId := T.Record(record.userId, record.familyId, record.revoked)]
    {
      tokens := tokens[record.tokenId := record];
    }

    method Find(tokenId: string) returns (record: RefreshTokenRecord?)
      ensures record != null <==> tokenId in tokens
      ensures record != null ==> record == tokens[tokenId]
    {
      record := if tokenId in tokens then tokens[tokenId] else null;
    }

    method Revoke(tokenId: string)
      requires Valid()
      modifies tokens.Values
      ensures tokens == old(tokens) && View() == T.RevokeOne(old(View()), tokenId)
    {
      if tokenId in tokens {
        tokens[tokenId].revoked := true;
      }
    }

    method RevokeFamily(familyId: string)
      requires Valid()
      modifies tokens.Values
      ensures tokens == old(tokens) && View() == T.RevokeAll(old(View()), familyId)
    {
      var rest := tokens.Keys;
      while rest != {}
        invariant rest <= tokens.Keys
        invariant forall t :: t in rest ==> tokens[t].revoked == old(tokens[t].revoked)
        invariant forall t :: t in tokens && t !in rest ==>
          tokens[t].revoked == (old(tokens[t].revoked) || tokens[t].familyId == familyId)
        decreases rest
      {
        var t :| t in rest;
        if tokens[t].familyId == familyId {
          tokens[t].revoked := true;
        }
        rest := rest - {t};
      }
    }
  }

  /** A suspended call; after `find` it holds the shared record itself, not a copy. */
  datatype Activation =
    | Screened(claims: T.Claims, hit: bool)
    | Found(claims: T.Claims, record: RefreshTokenRecord?)
    | Punishing(claims: T.Claims)
    | Pending(claims: T.Claims, listed: bool)
    | Saved(claims: T.Claims)
    | Done(result: Result<T.Claims, T.Failure>)

  function ViewCall(a: Activation): T.Call {
    match a
    case Screened(c, hit) => T.Screened(c, hit)
    case Found(c, record) => T.Found(c, record != null)
    case Punishing(c) => T.Punishing(c)
    case Pending(c, listed) => T.Pending(c, listed)
    case Saved(c) => T.Saved(c)
    case Done(r) => T.Done(r)
  }

  class TokenRefreshService {
    const store: InMemoryRefreshTokenStore
    const blacklist: bool
    var calls: map<nat, Activation>
    ghost var issued: set<T.Claims>
    ghost var successions: seq<(string, string)>
    ghost var blacklisted: set<string>         // what has been passed to the blacklist

    ghost predicate Valid()
      reads this, store
    {
      && store.Valid()
      && forall k :: k in calls && calls[k].Found? && calls[k].record != null ==>
           calls[k].claims.tokenId in store.tokens && store.tokens[calls[k].claims.tokenId] == calls[k].record
    }

    ghost function View(): T.State
      reads this, store, store.tokens.Values
    {
      T.State(store.View(), map k | k in calls :: ViewCall(calls[k]), issued, successions, blacklisted)
    }

    constructor (blacklist: bool)
      ensures Valid() && fresh(store) && View() == T.Initial && this.blacklist == blacklist
    {
      this.blacklist := blacklist;
      calls, issued, successions, blacklisted := map[], {}, [], {};
      store := new InMemoryRefreshTokenStore();
    }

    /** `issueInitialTokens` up to its await; the identifiers are drawn by the caller. */
    method Login(k: nat, userId: string, familyId: string, tokenId: string)
      requires Valid() && T.Enabled(View(), T.Login(k, userId, familyId, tokenId))
      modifies this, store
      ensures Valid() && View() == T.Step(blacklist, old(View()), T.Login(k, userId, familyId, tokenId))
    {
      var record := new RefreshTokenRecord(tokenId, userId, familyId);
      store.Save(record);
      calls := calls[k := Saved(T.Claims(tokenId, familyId, userId))];
      assert View().calls == T.Step(blacklist, old(View()), T.Login(k, userId, familyId, tokenId)).calls;
    }

    /** `rotate` up to its first await; `hit` is what the blacklist, if any, will answer. */
    method Present(k: nat, claims: T.Claims, hit: bool)
      requires Valid() && T.Enabled(View(), T.Present(k, claims, hit))
      modifies this
      ensures Valid() && View() == T.Step(blacklist, old(View()), T.Present(k, claims, hit))
    {
      if blacklist {
        Suspend(k, Screened(claims, hit));
      } else {
        var record := store.Find(claims.tokenId);
        Suspend(k, Found(claims, record));
      }
    }

    /** The next segment of call `k`; `freshId` is the identifier it draws if it saves a new token. */
    method Resume(k: nat, freshId: string)
      requires Valid() && T.Enabled(View(), T.Resume(k, freshId))
      modifies this, store, store.tokens.Values
      ensures Valid() && View() == T.Step(blacklist, old(View()), T.Resume(k, freshId))
    {
      match calls[k]
      case Screened(c, hit) => AfterScreening(k, c, hit, freshId);
      case Found(c, record) => AfterFind(k, c, record, freshId);
      case Punishing(_) => Suspend(k, Done(Err(T.ReuseDetected)));
      case Pending(c, listed) => AfterRevoke(k, c, listed, freshId);
      case Saved(c) =>
        Suspend(k, Done(Ok(c)));
        issued := issued + {c};
      case Done(_) =>
    }

    method Suspend(k: nat, a: Activation)
      requires Valid()
      requires a.Found? && a.record != null ==>
        a.claims.tokenId in store.tokens && store.tokens[a.claims.tokenId] == a.record
      modifies this`calls
      ensures Valid() && View() == old(View()).(calls := old(View()).calls[k := ViewCall(a)])
    {
      calls := calls[k := a];
      assert View().calls == old(View()).calls[k := ViewCall(a)];
    }

    method AfterScreening(k: nat, c: T.Claims, hit: bool, freshId: string)
      requires Valid() && k in calls && calls[k] == Screened(c, hit)
      modifies this`calls
      ensures Valid() && View() == T.Step(blacklist, old(View()), T.Resume(k, freshId))
    {
      if hit {
        Suspend(k, Done(Err(T.BlacklistedToken)));
      } else {
        var record := store.Find(c.tokenId);
        Suspend(k, Found(c, record));
      }
    }

    /** The revoked-check and the revocation share one segment, on the record the store still holds. */
    method AfterFind(k: nat, c: T.Claims, record: RefreshTokenRecord?, freshId: string)
      requires Valid() && k in calls && calls[k] == Found(c, record)
      modifies this`calls, store.tokens.Values
      ensures Valid() && View() == T.Step(blacklist, old(View()), T.Resume(k, freshId))
    {
      if record == null {
        Suspend(k, Done(Err(T.UnknownToken)));
      } else if record.revoked {
        store.RevokeFamily(c.familyId);
        Suspend(k, Punishing(c));
      } else {
        store.Revoke(c.tokenId);
        Suspend(k, Pending(c, false));
      }
    }

    method AfterRevoke(k: nat, c: T.Claims, listed: bool, freshId: string)
      requires Valid() && k in calls && calls[k] == Pending(c, listed) && freshId !in store.tokens
      modifies this, store
      ensures Valid() && View() == T.Step(blacklist, old(View()), T.Resume(k, freshId))
    {
      if blacklist && !listed {
        Suspend(k, Pending(c, true));
        blacklisted := blacklisted + {c.tokenId};
      } else {
        SaveNext(k, c, freshId);
      }
    }

    method SaveNext(k: nat, c: T.Claims, freshId: string)
      requires Valid() && k in calls && freshId !in store.tokens
      modifies this, store
      ensures Valid()
      ensures View() == old(View()).(
        tokens := old(View()).tokens[freshId := T.Record(c.userId, c.familyId, false)],
        calls := old(View()).calls[k := T.Saved(T.Claims(freshId, c.familyId, c.userId))],
        successions := old(View()).successions + [(c.tokenId, freshId)])
    {
      var record := new RefreshTokenRecord(freshId, c.userId, c.familyId);
      store.Save(record);
      Suspend(k, Saved(T.Claims(freshId, c.familyId, c.userId)));
      successions := successions + [(c.tokenId, freshId)];
    }

    method RevokeFamily(familyId: string)
      requires Valid()
      modifies store.tokens.Values
      ensures Valid() && View() == T.Step(blacklist, old(View()), T.RevokeFamily(familyId))
    {
      store.RevokeFamily(familyId);
    }
  }
}
