/**
 * The access-token rule of the commerce API client (check_token): the token
 * and its expiry live in process-wide state; a check refreshes them through
 * an OAuth 2.0 client-credentials grant (section 4.4 of RFC 6749) when no
 * expiry is stored, when the stored expiry lies before `now`, or when the
 * caller reports an error.
 */
module TokenStore {
  import opened Common

  /** Seconds taken off the expiry the token endpoint reports. */
  const ExpiryMargin: int := 60

  /** The stored pair: TOKEN_EXPIRES (None when unset or empty) and ACCESS_TOKEN. */
  datatype TokenState = TokenState(expires: Option<int>, accessToken: Option<string>)

  /**
   * The token endpoint's answer as the client reads it: whether the status
   * was a success, and the "expires" and "access_token" fields of the JSON
   * body (None when missing, or when the body is not JSON).
   */
  datatype TokenResponse = TokenResponse(success: bool, expires: Option<int>, accessToken: Option<string>)

  /** A usable grant, or a failed exchange. */
  datatype Exchange = Granted(expires: int, accessToken: string) | Refused

  /** The new state, whether the endpoint was called, and whether the check raised. */
  datatype CheckResult = CheckResult(state: TokenState, exchanged: bool, raised: bool)

  /** The refresh guard: nothing stored, stored expiry strictly before now, or an error reported. */
  predicate NeedsRefresh(expires: Option<int>, now: int, error: bool)
  {
    expires.None? || expires.value < now || error
  }

  /**
   * check_token on a parsed exchange: when the guard holds the endpoint is
   * called; a granted exchange stores expires - 60 and the new token, a
   * failed one raises and stores nothing.
   */
  function CheckToken(s: TokenState, now: int, error: bool, x: Exchange): (r: CheckResult)
    ensures r.exchanged <==> NeedsRefresh(s.expires, now, error)
    ensures !r.exchanged ==> r.state == s && !r.raised
    ensures r.raised <==> r.exchanged && x.Refused?
    ensures r.raised ==> r.state == s
    ensures r.exchanged && x.Granted? ==> r.state == TokenState(Some(x.expires - ExpiryMargin), Some(x.accessToken))
  {
    if !NeedsRefresh(s.expires, now, error) then CheckResult(s, false, false)
    else match x
      case Refused => CheckResult(s, true, true)
      case Granted(expires, token) => CheckResult(TokenState(Some(expires - ExpiryMargin), Some(token)), true, false)
  }

  /** A stored expiry equal to now is still valid: no exchange, nothing changes. */
  lemma ExpiryAtNowIsValid(token: Option<string>, now: int, x: Exchange)
    ensures CheckToken(TokenState(Some(now), token), now, false, x) == CheckResult(TokenState(Some(now), token), false, false)
  {
  }

  /** The error flag refreshes even a token whose stored expiry is still in the future. */
  lemma ErrorForcesRefresh(s: TokenState, now: int, expires: int, token: string)
    ensures CheckToken(s, now, true, Granted(expires, token)).state == TokenState(Some(expires - 60), Some(token))
  {
  }

  /**
   * After a successful refresh, checking again (without an error) at any
   * time up to the stored expiry calls the endpoint no more and keeps the
   * new token.
   */
  lemma RefreshedTokenIsKept(s: TokenState, now: int, error: bool, x: Exchange, later: int, y: Exchange)
    requires x.Granted? && NeedsRefresh(s.expires, now, error)
    requires later <= x.expires - ExpiryMargin
    ensures var r := CheckToken(s, now, error, x);
            (CheckToken(r.state, later, false, y) == CheckResult(r.state, false, false))
  {
  }

  // ---------------------------------------------------------------------------
  // Reading the endpoint's answer
  // ---------------------------------------------------------------------------

  /**
   * api-store.py:21-25 as written: raise_for_status, then store the expiry,
   * then look up "access_token". A success body without "access_token" has
   * already stored the new expiry when the lookup raises.
   */
  function CheckTokenAsWritten(s: TokenState, now: int, error: bool, resp: TokenResponse): (r: CheckResult)
    ensures r.exchanged <==> NeedsRefresh(s.expires, now, error)
    ensures !r.exchanged ==> r.state == s && !r.raised
  {
    if !NeedsRefresh(s.expires, now, error) then CheckResult(s, false, false)
    else if !resp.success || resp.expires.None? then CheckResult(s, true, true)
    else
      var stored := TokenState(Some(resp.expires.value - ExpiryMargin), s.accessToken);
      match resp.accessToken
      case None => CheckResult(stored, true, true)
      case Some(token) => CheckResult(stored.(accessToken := Some(token)), true, false)
  }

  /**
   * As written, a success answer without "access_token" leaves a new expiry
   * beside the old token, and the next check then keeps that old token.
   */
  lemma PartialWriteAsWritten()
    ensures var s := TokenState(Some(100), Some("old"));
            var r := CheckTokenAsWritten(s, 200, false, TokenResponse(true, Some(5000), None));
            && r.raised
            && r.state == TokenState(Some(4940), Some("old"))
            && CheckTokenAsWritten(r.state, 200, false, TokenResponse(true, Some(9000), Some("new"))).state
               == TokenState(Some(4940), Some("old"))
  {
  }

  /** The answer is usable only with a success status and both fields present. */
  function ParseResponse(resp: TokenResponse): (x: Exchange)
    ensures x.Granted? <==> resp.success && resp.expires.Some? && resp.accessToken.Some?
    ensures x.Granted? ==> Some(x.expires) == resp.expires && Some(x.accessToken) == resp.accessToken
  {
    if resp.success && resp.expires.Some? && resp.accessToken.Some?
    then Granted(resp.expires.value, resp.accessToken.value)
    else Refused
  }

  /**
   * check_token reading the whole answer before storing anything: the
   * stored pair is either untouched or both fields come from the answer.
   */
  function CheckTokenResponse(s: TokenState, now: int, error: bool, resp: TokenResponse): (r: CheckResult)
    ensures r.raised ==> r.state == s
    ensures r.state == s
         || (resp.expires.Some? && r.state == TokenState(Some(resp.expires.value - ExpiryMargin), resp.accessToken))
  {
    CheckToken(s, now, error, ParseResponse(resp))
  }

  /** The corrected check differs from the code as written only on that malformed answer. */
  lemma CorrectedAgreesOnWellFormedAnswers(s: TokenState, now: int, error: bool, resp: TokenResponse)
    requires !resp.success || resp.expires.None? || resp.accessToken.Some?
    ensures CheckTokenResponse(s, now, error, resp) == CheckTokenAsWritten(s, now, error, resp)
  {
  }

  /**
   * The process-wide token state. `expires` and `accessToken` are the
   * TOKEN_EXPIRES and ACCESS_TOKEN environment entries.
   */
  class Credentials {
    var expires: Option<int>
    var accessToken: Option<string>

    function State(): TokenState
      reads this
    {
      TokenState(expires, accessToken)
    }

    constructor (initial: TokenState)
      ensures State() == initial
    {
      expires := initial.expires;
      accessToken := initial.accessToken;
    }

    /**
     * check_token(error): when the guard holds, ask the token endpoint (its
     * answer is `resp`) and store the new pair; `ok` is false when the
     * check raises.
     */
    method CheckToken(now: int, error: bool, resp: TokenResponse) returns (exchanged: bool, ok: bool)
      modifies this
      ensures CheckTokenResponse(old(State()), now, error, resp) == CheckResult(State(), exchanged, !ok)
      ensures exchanged <==> NeedsRefresh(old(expires), now, error)
      ensures !ok || !exchanged ==> State() == old(State())
    {
      exchanged, ok := false, true;
      if expires.None? || expires.value < now || error {
        exchanged := true;
        if !resp.success || resp.expires.None? || resp.accessToken.None? {
          ok := false;
          return;
        }
        expires, accessToken := Some(resp.expires.value - ExpiryMargin), Some(resp.accessToken.value);
      }
    }
  }
}
