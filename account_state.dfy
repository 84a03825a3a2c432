/** The account state holder (hooks/useAccount.tsx): the signed-in user's bank
    account details, a loading flag, an error message and a one-entry local cache of
    the last details fetched. The remote `getAccountDetails` call is a function
    parameter; the storage entry is a field. */
module AccountState {
  import opened Common

  /** The account details kept in memory and in the cache: the backend's response
      without its `success` flag. */
  datatype AccountDetails = AccountDetails(accountNumber: string, agency: string, ownerName: string, balance: real)

  /** A resolved `getAccountDetails` response. */
  datatype DetailsResponse = DetailsResponse(success: bool, details: AccountDetails)

  /** What the remote call does: resolve with a response (None for `null` or
      `undefined`), or throw an error that may carry a message. */
  datatype GatewayReply = Answered(response: Option<DetailsResponse>) | Threw(message: Option<string>)

  const AccountNumberNotFound: string :=
    "Número da conta não encontrado. Finalize o cadastro ou entre em contato com o suporte."
  const DetailsUnavailable: string := "Não foi possível obter os dados da conta."
  const GenericAccountError: string := "Erro ao buscar detalhes da conta."

  /** A JavaScript string value that is truthy: present and non-empty. */
  predicate Truthy(s: Option<string>) {
    s.Some? && s.value != ""
  }

  /** The override, else the in-memory account's number, else none: only an absent override
      falls through; an empty one is kept (and then fails the truthiness test). */
  function FirstCandidate(override: Option<string>, account: Option<AccountDetails>): (r: Option<string>)
    ensures r.None? <==> override.None? && account.None?
    ensures r.Some? ==> r == override || (override.None? && r == CachedNumber(account))
  {
    if override.Some? then override
    else if account.Some? then Some(account.value.accountNumber)
    else None
  }

  /** The cached account's number, if there is a cached account. */
  function CachedNumber(cache: Option<AccountDetails>): Option<string> {
    if cache.Some? then Some(cache.value.accountNumber) else None
  }

  /** Whether the refresh reads the cache: the first candidate is falsy. */
  predicate ConsultsCache(override: Option<string>, account: Option<AccountDetails>) {
    !Truthy(FirstCandidate(override, account))
  }

  /** The account number a refresh asks the backend for, or None when no number
      resolves. */
  function TargetNumber(override: Option<string>, account: Option<AccountDetails>, cache: Option<AccountDetails>)
    : (r: Option<string>)
    ensures r.Some? ==> r.value != ""
  {
    if !ConsultsCache(override, account) then FirstCandidate(override, account)
    else if Truthy(CachedNumber(cache)) then CachedNumber(cache)
    else None
  }

  /** The priority order: a non-empty override wins; with no override a non-empty
      in-memory number wins; otherwise the cached number, if non-empty. The number asked
      for is always one of the three. */
  lemma TargetPriority(override: Option<string>, account: Option<AccountDetails>, cache: Option<AccountDetails>)
    ensures Truthy(override) ==> TargetNumber(override, account, cache) == override
    ensures override.None? && account.Some? && account.value.accountNumber != ""
            ==> TargetNumber(override, account, cache) == Some(account.value.accountNumber)
    ensures !Truthy(override) && (override.Some? || account.None? || account.value.accountNumber == "")
            ==> TargetNumber(override, account, cache)
                == (if cache.Some? && cache.value.accountNumber != "" then Some(cache.value.accountNumber) else None)
    ensures TargetNumber(override, account, cache).Some? ==>
              TargetNumber(override, account, cache) in {override, CachedNumber(account), CachedNumber(cache)}
  {
  }

  /** How an authenticated refresh ends. */
  datatype Outcome = Loaded(details: AccountDetails) | Failed(message: string)

  /** The remote reply read by the refresh: a successful response loads its details; a
      response that is missing or unsuccessful fails with its own message; a thrown error
      keeps its message (`accountError?.message ?? …`, so an empty message stays empty)
      and falls back to the generic one only when it has none. */
  function ReplyOutcome(reply: GatewayReply): (r: Outcome)
    ensures r.Loaded? <==> reply.Answered? && reply.response.Some? && reply.response.value.success
    ensures r.Loaded? ==> r.details == reply.response.value.details
    ensures reply.Answered? && !r.Loaded? ==> r == Failed(DetailsUnavailable)
    ensures reply.Threw? ==> r == Failed(reply.message.GetOr(GenericAccountError))
  {
    match reply
    case Threw(message) => Failed(if message.Some? then message.value else GenericAccountError)
    case Answered(response) =>
      if response.Some? && response.value.success then Loaded(response.value.details)
      else Failed(DetailsUnavailable)
  }

  /** The outcome of an authenticated refresh for a resolved target: without a number it
      fails before any remote call; otherwise it is decided by the remote reply. */
  function RefreshOutcome(target: Option<string>, gateway: string -> GatewayReply): (r: Outcome)
    ensures target.None? ==> r == Failed(AccountNumberNotFound)
    ensures r.Loaded? ==> target.Some? && gateway(target.value).Answered?
                          && gateway(target.value).response == Some(DetailsResponse(true, r.details))
  {
    if target.None? then Failed(AccountNumberNotFound) else ReplyOutcome(gateway(target.value))
  }

  /** After a successful refresh, refreshing again without an override asks for the same
      account, whatever the cache holds. */
  lemma RefreshAgainTargetsSameAccount(details: AccountDetails, cache: Option<AccountDetails>)
    requires details.accountNumber != ""
    ensures TargetNumber(None, Some(details), cache) == Some(details.accountNumber)
  {
    TargetPriority(None, Some(details), cache);
  }

  /** After `clearAccount` has emptied memory and cache, a refresh without an override
      finds no number and fails with the not-found message. */
  lemma ClearedAccountCannotRefresh(gateway: string -> GatewayReply)
    ensures TargetNumber(None, None, None).None?
    ensures RefreshOutcome(TargetNumber(None, None, None), gateway) == Failed(AccountNumberNotFound)
  {
  }

  class AccountProvider {
    var account: Option<AccountDetails>
    var loadingAccount: bool
    var error: Option<string>
    /** The storage entry under the account details key. */
    var cache: Option<AccountDetails>
    /** `isMountedRef.current`: false once the provider has unmounted. */
    var mounted: bool
    /** The account numbers sent to `getAccountDetails`, oldest first. */
    var requests: seq<string>

    /** A freshly mounted provider over whatever the storage already holds. */
    constructor (stored: Option<AccountDetails>)
      ensures account.None? && !loadingAccount && error.None?
      ensures cache == stored && mounted && requests == []
    {
      account := None;
      loadingAccount := false;
      error := None;
      cache := stored;
      mounted := true;
      requests := [];
    }

    /** The effect cleanup that runs on unmount. */
    method Unmount()
      modifies this`mounted
      ensures !mounted
    {
      mounted := false;
    }

    /** `persistAccount`: null removes the entry, details overwrite it. */
    method PersistAccount(details: Option<AccountDetails>)
      modifies this`cache
      ensures cache == details
    {
      if details.None? {
        cache := None;
        return;
      }
      cache := details;
    }

    /** `loadStoredAccount`: returns the cached details, and copies them into memory when
        there are some and the provider is still mounted. */
    method LoadStoredAccount() returns (stored: Option<AccountDetails>)
      modifies this`account
      ensures stored == cache
      ensures account == if mounted && cache.Some? then cache else old(account)
    {
      if cache.Some? {
        var parsed := cache.value;
        if mounted {
          account := Some(parsed);
        }
        return Some(parsed);
      }
      return None;
    }

    /** `clearAccount`: forgets the account and the error while mounted, and always
        removes the cache entry. */
    method ClearAccount()
      modifies this`account, this`error, this`cache
      ensures cache.None?
      ensures mounted ==> account.None? && error.None?
      ensures !mounted ==> account == old(account) && error == old(error)
    {
      if mounted {
        account := None;
        error := None;
      }
      PersistAccount(None);
    }

    /** `refreshAccount`. Unauthenticated, it clears and makes no request. Otherwise it
        resolves the target number (reading the cache, and adopting it in memory, only
        when the first candidate is falsy), asks the backend only when a number resolved,
        commits a successful response to memory and cache, records the failure message
        otherwise, and ends not loading. An unmounted provider changes no state field,
        while the cache is still written. */
    method RefreshAccount(isAuthenticated: bool, override: Option<string>, gateway: string -> GatewayReply)
      modifies this`account, this`loadingAccount, this`error, this`cache, this`requests
      ensures !isAuthenticated ==> cache.None? && requests == old(requests) && loadingAccount == old(loadingAccount)
      ensures !isAuthenticated && mounted ==> account.None? && error.None?
      ensures isAuthenticated ==>
        var target := TargetNumber(override, old(account), old(cache));
        var outcome := RefreshOutcome(target, gateway);
        && requests == old(requests) + (if target.Some? then [target.value] else [])
        && cache == (if outcome.Loaded? then Some(outcome.details) else old(cache))
      ensures isAuthenticated && mounted ==>
        var target := TargetNumber(override, old(account), old(cache));
        var outcome := RefreshOutcome(target, gateway);
        && !loadingAccount
        && error == (if outcome.Failed? then Some(outcome.message) else None)
        && account == (if outcome.Loaded? then Some(outcome.details)
                       else if ConsultsCache(override, old(account)) && old(cache).Some? then old(cache)
                       else old(account))
      ensures !mounted ==> account == old(account) && error == old(error) && loadingAccount == old(loadingAccount)
    {
      if !isAuthenticated {
        ClearAccount();
        return;
      }
      if mounted {
        loadingAccount := true;
        error := None;
      }
      var failure: Option<string> := None;
      var target := FirstCandidate(override, account);
      if !Truthy(target) {
        var stored := LoadStoredAccount();
        target := CachedNumber(stored);
      }
      if !Truthy(target) {
        failure := Some(AccountNumberNotFound);
      } else {
        requests := requests + [target.value];
        var reply := gateway(target.value);
        if reply.Threw? {
          failure := Some(if reply.message.Some? then reply.message.value else GenericAccountError);
        } else if reply.response.None? || !reply.response.value.success {
          failure := Some(DetailsUnavailable);
        } else {
          var details := reply.response.value.details;
          if mounted {
            account := Some(details);
          }
          PersistAccount(Some(details));
        }
      }
      if failure.Some? && mounted {
        error := failure;
      }
      if mounted {
        loadingAccount := false;
      }
    }
  }
}
