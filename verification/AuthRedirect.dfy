/** The place a login lands on: the address a signed-out visitor asked for, kept
    in the session with a one-time nonce, from the 401 through the login page to
    the completion of the login. */
module AuthRedirect {
  import opened Prelude
  import opened Text

  datatype Role = Standard | SupportReadonly

  datatype Stash = Stash(target: string, nonce: string, role: Option<Role>)

  const FALLBACK := "/work-items"

  /** `isSafeRedirectTarget` */
  predicate IsSafe(target: string) {
    StartsWith(target, "/") && !StartsWith(target, "//") && !StartsWith(target, "/\\")
  }

  /** A path on this site: one slash, and then neither a slash nor a backslash. */
  predicate IsLocal(target: string) {
    |target| > 0 && target[0] == '/' && (|target| > 1 ==> target[1] != '/' && target[1] != '\\')
  }

  lemma SafeIsLocal(target: string)
    ensures IsSafe(target) <==> IsLocal(target)
  {
    if |target| > 0 && target[0] == '/' {
      assert StartsWith(target, "/");
      if |target| > 1 && (target[1] == '/' || target[1] == '\\') {
        assert target[..2] == "//" || target[..2] == "/\\";
      }
    }
  }

  /** `requiredRoleFor`, on the scopes a route accepts. */
  function RequiredRole(scopes: seq<Role>): Option<Role> {
    if SupportReadonly in scopes then Some(SupportReadonly)
    else if Standard in scopes then Some(Standard)
    else None
  }

  /** What one login attempt against the identity provider is tied to. */
  datatype Tokens = Tokens(state: string, nonce: string, verifier: string)

  /** The session keys the login flow reads and writes. */
  datatype Keys = Keys(
    stash: Option<Stash>, oauthState: Option<string>, oauthNonce: Option<string>, pkceVerifier: Option<string>,
    user: Option<Role>)

  const EMPTY := Keys(None, None, None, None, None)

  /** How the token exchange of a callback ends. */
  datatype Exchange = ExchangeFailed | Verified(regulator: bool, support: bool)

  /** One request of a session. `tokens` is `None` when discovery fails. */
  datatype Event =
    | Unauthorised(isGet: bool, target: string, scopes: seq<Role>, nonce: string)
    | RegulatorLogin(rt: Option<string>, tokens: Option<Tokens>)
    | StubLoginPage(rt: Option<string>)
    | Callback(code: Option<string>, state: Option<string>, exchange: Exchange)
    | StubLogin(role: Role)
    | Logout

  datatype Reply =
    | ToLogin(rt: Option<string>)
    | ToProvider
    | LoginForm
    | BadGateway
    | AccessDenied
    | LoggedIn(role: Role, landing: string)
    | LoggedOut

  predicate IsSet(s: Option<string>) {
    s.Some? && s.value != ""
  }

  predicate IsStashable(isGet: bool, target: string) {
    isGet && IsSafe(target) && !StartsWith(target, "/auth/")
  }

  /** The session keys of one visitor, and the handlers that change them. */
  class Session {
    var stash: Option<Stash>
    var oauthState: Option<string>
    var oauthNonce: Option<string>
    var pkceVerifier: Option<string>
    var user: Option<Role>

    function Value(): Keys
      reads this
    {
      Keys(stash, oauthState, oauthNonce, pkceVerifier, user)
    }

    constructor ()
      ensures Value() == EMPTY
    {
      stash, oauthState, oauthNonce, pkceVerifier, user := None, None, None, None, None;
    }

    /** `yar.reset()` */
    method Reset()
      modifies this
      ensures Value() == EMPTY
    {
      stash, oauthState, oauthNonce, pkceVerifier, user := None, None, None, None, None;
    }

    /** `redirectToLogin` on a 401. */
    method RedirectToLogin(isGet: bool, target: string, scopes: seq<Role>, nonce: string) returns (reply: Reply)
      modifies this
      ensures (Value(), reply) == Answer(old(Value()), Unauthorised(isGet, target, scopes, nonce))
    {
      var rt := None;
      if isGet {
        if IsSafe(target) && !StartsWith(target, "/auth/") {
          stash := Some(Stash(target, nonce, RequiredRole(scopes)));
          rt := Some(nonce);
        }
      }
      return ToLogin(rt);
    }

    /** `confirmPostLoginRedirect` */
    method Confirm(rt: Option<string>)
      modifies this
      ensures Value() == old(Value()).(stash := Confirmed(old(stash), rt))
    {
      if stash.Some? && Some(stash.value.nonce) != rt {
        stash := None;
      }
    }

    /** `popPostLoginRedirect` */
    method Pop(role: Role) returns (landing: string)
      modifies this
      ensures landing == Landing(old(stash), role)
      ensures Value() == old(Value()).(stash := None)
    {
      var stashed := stash;
      stash := None;
      if stashed.None? || !IsSafe(stashed.value.target) {
        return FALLBACK;
      }
      if stashed.value.role.Some? && stashed.value.role != Some(role) {
        return FALLBACK;
      }
      return stashed.value.target;
    }

    /** `regulatorLogin` */
    method RegulatorLoginHandler(rt: Option<string>, tokens: Option<Tokens>) returns (reply: Reply)
      modifies this
      ensures (Value(), reply) == Answer(old(Value()), RegulatorLogin(rt, tokens))
    {
      Confirm(rt);
      if tokens.None? {
        return BadGateway;
      }
      oauthState := Some(tokens.value.state);
      oauthNonce := Some(tokens.value.nonce);
      pkceVerifier := Some(tokens.value.verifier);
      return ToProvider;
    }

    /** `stubLoginGetController` */
    method StubLoginPageHandler(rt: Option<string>) returns (reply: Reply)
      modifies this
      ensures (Value(), reply) == Answer(old(Value()), StubLoginPage(rt))
    {
      Confirm(rt);
      return LoginForm;
    }

    /** What both login completions end with. */
    method Complete(role: Role) returns (reply: Reply)
      modifies this
      ensures Value() == EMPTY.(user := Some(role)) && reply == LoggedIn(role, Landing(old(stash), role))
    {
      var redirectTo := Pop(role);
      Reset();
      user := Some(role);
      return LoggedIn(role, redirectTo);
    }

    /** `regulatorCallback` */
    method CallbackHandler(code: Option<string>, state: Option<string>, exchange: Exchange) returns (reply: Reply)
      modifies this
      ensures (Value(), reply) == Answer(old(Value()), Callback(code, state, exchange))
    {
      var storedNonce, storedVerifier := oauthNonce, pkceVerifier;
      if !IsSet(code) || !IsSet(state) || state != oauthState {
        return ToLogin(None);
      }
      oauthState := None;
      oauthNonce := None;
      pkceVerifier := None;
      if !IsSet(storedNonce) || !IsSet(storedVerifier) {
        return ToLogin(None);
      }
      if exchange.ExchangeFailed? {
        return ToLogin(None);
      }
      if exchange.regulator {
        reply := Complete(Standard);
      } else if exchange.support {
        reply := Complete(SupportReadonly);
      } else {
        reply := AccessDenied;
      }
    }

    /** `stubLoginPostController` */
    method StubLoginHandler(role: Role) returns (reply: Reply)
      modifies this
      ensures (Value(), reply) == Answer(old(Value()), StubLogin(role))
    {
      reply := Complete(role);
    }

    /** The session part of `logout`. */
    method LogoutHandler() returns (reply: Reply)
      modifies this
      ensures (Value(), reply) == Answer(old(Value()), Logout)
    {
      Reset();
      return LoggedOut;
    }
  }

  // ---- The same steps as a function of the keys ----

  function Confirmed(stash: Option<Stash>, rt: Option<string>): Option<Stash> {
    if stash.Some? && Some(stash.value.nonce) == rt then stash else None
  }

  function Landing(stash: Option<Stash>, role: Role): string {
    if stash.Some? && IsSafe(stash.value.target) && (stash.value.role.None? || stash.value.role == Some(role))
    then stash.value.target
    else FALLBACK
  }

  function Finish(k: Keys, role: Role): (Keys, Reply) {
    (EMPTY.(user := Some(role)), LoggedIn(role, Landing(k.stash, role)))
  }

  predicate Matches(k: Keys, code: Option<string>, state: Option<string>) {
    IsSet(code) && IsSet(state) && state == k.oauthState
  }

  function Answer(k: Keys, e: Event): (Keys, Reply) {
    match e
    case Unauthorised(isGet, target, scopes, nonce) =>
      if IsStashable(isGet, target)
      then (k.(stash := Some(Stash(target, nonce, RequiredRole(scopes)))), ToLogin(Some(nonce)))
      else (k, ToLogin(None))
    case RegulatorLogin(rt, tokens) =>
      var kept := k.(stash := Confirmed(k.stash, rt));
      if tokens.None? then (kept, BadGateway)
      else
        (kept.(oauthState := Some(tokens.value.state), oauthNonce := Some(tokens.value.nonce),
               pkceVerifier := Some(tokens.value.verifier)), ToProvider)
    case StubLoginPage(rt) => (k.(stash := Confirmed(k.stash, rt)), LoginForm)
    case Callback(code, state, exchange) =>
      if !Matches(k, code, state) then (k, ToLogin(None))
      else
        var spent := k.(oauthState := None, oauthNonce := None, pkceVerifier := None);
        if !IsSet(k.oauthNonce) || !IsSet(k.pkceVerifier) || exchange.ExchangeFailed? then (spent, ToLogin(None))
        else if exchange.regulator then Finish(k, Standard)
        else if exchange.support then Finish(k, SupportReadonly)
        else (spent, AccessDenied)
    case StubLogin(role) => Finish(k, role)
    case Logout => (EMPTY, LoggedOut)
  }

  /** The keys after the first `n` requests of a session. */
  function KeysAt(es: seq<Event>, n: nat): Keys
    requires n <= |es|
  {
    if n == 0 then EMPTY else Answer(KeysAt(es, n - 1), es[n - 1]).0
  }

  function ReplyAt(es: seq<Event>, i: nat): Reply
    requires i < |es|
  {
    Answer(KeysAt(es, i), es[i]).1
  }

  // ---- Which stash a login lands on ----

  /** A signed-out GET of an address of this site that is not a login page. */
  predicate Stashes(e: Event) {
    e.Unauthorised? && e.isGet && IsLocal(e.target) && !StartsWith(e.target, "/auth/")
  }

  /** Does a login with this role get in where these scopes are asked for? A route
      asks for the support role, for the standard role, or for neither. */
  predicate Fits(scopes: seq<Role>, role: Role) {
    && (SupportReadonly in scopes ==> role == SupportReadonly)
    && (SupportReadonly !in scopes && Standard in scopes ==> role == Standard)
  }

  function StashOf(e: Event): Stash
    requires Stashes(e)
  {
    Stash(e.target, e.nonce, RequiredRole(e.scopes))
  }

  /** The login link a signed-out visitor is sent to carries the nonce exactly when
      the address was stashed. */
  lemma LinkCarriesNonce(k: Keys, e: Event)
    requires e.Unauthorised?
    ensures Answer(k, e).1 == ToLogin(if Stashes(e) then Some(e.nonce) else None)
    ensures Answer(k, e).0 == if Stashes(e) then k.(stash := Some(StashOf(e))) else k
  {
    SafeIsLocal(e.target);
  }

  /** A visit of a login page that does not carry the nonce. */
  predicate VisitsWithout(e: Event, nonce: string) {
    (e.RegulatorLogin? || e.StubLoginPage?) && e.rt != Some(nonce)
  }

  /** A login completed, or a logout. */
  predicate EndsSession(es: seq<Event>, i: nat)
    requires i < |es|
  {
    ReplyAt(es, i).LoggedIn? || es[i].Logout?
  }

  /** Request `i` stashed an address that still waits before request `n`: nothing
      has been stashed since, no login-page visit carried another nonce, and the
      session has not ended. */
  ghost predicate Waits(es: seq<Event>, i: nat, n: nat)
    requires n <= |es|
  {
    && i < n && Stashes(es[i])
    && forall j :: i < j < n ==> !Stashes(es[j]) && !VisitsWithout(es[j], es[i].nonce) && !EndsSession(es, j)
  }

  lemma {:induction false} StashIsWaiting(es: seq<Event>, n: nat)
    requires n <= |es|
    ensures KeysAt(es, n).stash.Some? ==>
              exists i :: 0 <= i < n && Waits(es, i, n) && KeysAt(es, n).stash == Some(StashOf(es[i]))
  {
    if n > 0 && KeysAt(es, n).stash.Some? {
      StashIsWaiting(es, n - 1);
      var e := es[n - 1];
      if e.Unauthorised? {
        LinkCarriesNonce(KeysAt(es, n - 1), e);
      }
      if Stashes(e) {
        assert Waits(es, n - 1, n);
      } else {
        var i :| 0 <= i < n - 1 && Waits(es, i, n - 1) && KeysAt(es, n - 1).stash == Some(StashOf(es[i]));
        assert !EndsSession(es, n - 1) && !VisitsWithout(e, es[i].nonce);
        assert Waits(es, i, n);
      }
    }
  }

  lemma {:induction false} WaitingIsStashed(es: seq<Event>, i: nat, n: nat)
    requires n <= |es| && Waits(es, i, n)
    ensures KeysAt(es, n).stash == Some(StashOf(es[i]))
    decreases n
  {
    if es[n - 1].Unauthorised? {
      LinkCarriesNonce(KeysAt(es, n - 1), es[n - 1]);
    }
    if i < n - 1 {
      assert Waits(es, i, n - 1);
      WaitingIsStashed(es, i, n - 1);
    }
  }

  /** Every login lands on the address waiting for it, if its route asks for no
      role or for the one the login has; and otherwise on the work items list.
      Either way it stays on the site and off the login pages. */
  lemma LandsExactly(es: seq<Event>, k: nat)
    requires k < |es| && ReplyAt(es, k).LoggedIn?
    ensures var LoggedIn(role, landing) := ReplyAt(es, k);
            && (forall i :: 0 <= i < k && Waits(es, i, k) ==>
                  landing == if Fits(es[i].scopes, role) then es[i].target else "/work-items")
            && ((forall i :: 0 <= i < k ==> !Waits(es, i, k)) ==> landing == "/work-items")
            && IsLocal(landing) && !StartsWith(landing, "/auth/")
  {
    var LoggedIn(role, landing) := ReplyAt(es, k);
    assert landing == Landing(KeysAt(es, k).stash, role);
    StashIsWaiting(es, k);
    forall i | 0 <= i < k && Waits(es, i, k)
      ensures KeysAt(es, k).stash == Some(StashOf(es[i]))
    {
      WaitingIsStashed(es, i, k);
    }
    assert FALLBACK[1] == 'w';
    SafeIsLocal(landing);
    forall i | 0 <= i < k && Waits(es, i, k)
      ensures landing == if Fits(es[i].scopes, role) then es[i].target else "/work-items"
    {
      SafeIsLocal(es[i].target);
    }
  }

  /** No stash is used by two logins. */
  lemma NoStashUsedTwice(es: seq<Event>, i: nat, k1: nat, k2: nat)
    requires k1 < k2 < |es| && ReplyAt(es, k1).LoggedIn? && ReplyAt(es, k2).LoggedIn?
    requires Waits(es, i, k1)
    ensures !Waits(es, i, k2)
  {
    assert EndsSession(es, k1);
  }

  // ---- Each attempt's state is good for one callback ----

  predicate Begins(e: Event) {
    e.RegulatorLogin? && e.tokens.Some?
  }

  /** A callback with a code and a state that is not empty. */
  predicate Presents(e: Event, state: string) {
    e.Callback? && e.code.Some? && e.code.value != "" && state != "" && e.state == Some(state)
  }

  /** Request `i` began an attempt that is still open before request `n`. */
  ghost predicate Open(es: seq<Event>, i: nat, n: nat)
    requires n <= |es|
  {
    && i < n && Begins(es[i])
    && forall j :: i < j < n ==>
         !Begins(es[j]) && !EndsSession(es, j) && !Presents(es[j], es[i].tokens.value.state)
  }

  predicate HoldsTokens(k: Keys, t: Tokens) {
    k.oauthState == Some(t.state) && k.oauthNonce == Some(t.nonce) && k.pkceVerifier == Some(t.verifier)
  }

  lemma {:induction false} StateIsOpen(es: seq<Event>, n: nat)
    requires n <= |es|
    ensures KeysAt(es, n).oauthState.Some? ==>
              exists i :: 0 <= i < n && Open(es, i, n) && HoldsTokens(KeysAt(es, n), es[i].tokens.value)
  {
    if n > 0 && KeysAt(es, n).oauthState.Some? {
      StateIsOpen(es, n - 1);
      var e := es[n - 1];
      if Begins(e) {
        assert Open(es, n - 1, n);
      } else {
        var i :| 0 <= i < n - 1 && Open(es, i, n - 1) && HoldsTokens(KeysAt(es, n - 1), es[i].tokens.value);
        assert !EndsSession(es, n - 1);
        assert Open(es, i, n);
      }
    }
  }

  lemma {:induction false} OpenHoldsTokens(es: seq<Event>, i: nat, n: nat)
    requires n <= |es| && Open(es, i, n)
    ensures HoldsTokens(KeysAt(es, n), es[i].tokens.value)
    decreases n
  {
    if i < n - 1 {
      assert Open(es, i, n - 1);
      OpenHoldsTokens(es, i, n - 1);
      assert !EndsSession(es, n - 1);
    }
  }

  /** The callback answers the attempt still open, and that attempt has a nonce and
      a verifier. */
  ghost predicate AnswersOpen(es: seq<Event>, k: nat)
    requires k < |es|
  {
    exists i :: 0 <= i < k && Open(es, i, k) && Presents(es[k], es[i].tokens.value.state)
                && es[i].tokens.value.nonce != "" && es[i].tokens.value.verifier != ""
  }

  lemma AnswersOpenMeans(es: seq<Event>, k: nat)
    requires k < |es| && es[k].Callback?
    ensures var keys := KeysAt(es, k);
            AnswersOpen(es, k)
            <==> Matches(keys, es[k].code, es[k].state) && IsSet(keys.oauthNonce) && IsSet(keys.pkceVerifier)
  {
    StateIsOpen(es, k);
    if AnswersOpen(es, k) {
      var i :| 0 <= i < k && Open(es, i, k) && Presents(es[k], es[i].tokens.value.state)
               && es[i].tokens.value.nonce != "" && es[i].tokens.value.verifier != "";
      OpenHoldsTokens(es, i, k);
    }
  }

  /** In every run, a callback logs in exactly when it answers the session's latest
      attempt, as the first to do so, and the exchange verifies one of the two
      roles; then as a caseworker if it verifies that role and otherwise as a
      support user. With neither role access is denied, and in every other case the
      visitor is sent to log in; the signed-in user is then the same as before. */
  lemma CallbackExactly(es: seq<Event>, k: nat)
    requires k < |es| && es[k].Callback?
    ensures var verified := AnswersOpen(es, k) && es[k].exchange.Verified?;
            var reply, user := ReplyAt(es, k), KeysAt(es, k + 1).user;
            && (reply.LoggedIn? <==> verified && (es[k].exchange.regulator || es[k].exchange.support))
            && (reply.LoggedIn? ==> reply.role == if es[k].exchange.regulator then Standard else SupportReadonly)
            && (reply == AccessDenied <==> verified && !es[k].exchange.regulator && !es[k].exchange.support)
            && (reply.LoggedIn? || reply == AccessDenied || reply == ToLogin(None))
            && user == if reply.LoggedIn? then Some(reply.role) else KeysAt(es, k).user
  {
    AnswersOpenMeans(es, k);
  }

  /** A callback logs in only for the latest attempt of the session, and only the
      first callback that carries its state. */
  lemma CallbackUsesOpenAttempt(es: seq<Event>, k: nat)
    requires k < |es| && es[k].Callback? && ReplyAt(es, k).LoggedIn?
    ensures exists i :: 0 <= i < k && Open(es, i, k) && es[k].state == Some(es[i].tokens.value.state)
  {
    CallbackExactly(es, k);
  }

  // ---- Who is signed in ----

  /** Login `i` is the one the session is in before request `n`: nothing has ended it
      or replaced it since. */
  ghost predicate SignedInBy(es: seq<Event>, i: nat, n: nat)
    requires n <= |es|
  {
    i < n && ReplyAt(es, i).LoggedIn? && forall j :: i < j < n ==> !EndsSession(es, j)
  }

  /** Only a callback and the stub login sign anyone in, the latter with the role
      asked for. */
  lemma LoginsAre(es: seq<Event>, k: nat)
    requires k < |es|
    ensures ReplyAt(es, k).LoggedIn? ==> es[k].Callback? || es[k].StubLogin?
    ensures es[k].StubLogin? ==> ReplyAt(es, k).LoggedIn? && ReplyAt(es, k).role == es[k].role
  {
  }

  /** The session holds the role of the login it is in, and nobody once that has
      ended. */
  lemma {:induction false} SignedInExactly(es: seq<Event>, n: nat)
    requires n <= |es|
    ensures forall i :: 0 <= i < n && SignedInBy(es, i, n) ==> KeysAt(es, n).user == Some(ReplyAt(es, i).role)
    ensures KeysAt(es, n).user.Some? ==> exists i :: 0 <= i < n && SignedInBy(es, i, n)
  {
    if n > 0 {
      SignedInExactly(es, n - 1);
      forall i | 0 <= i < n && SignedInBy(es, i, n) ensures KeysAt(es, n).user == Some(ReplyAt(es, i).role) {
        if i < n - 1 {
          assert SignedInBy(es, i, n - 1);
          assert !EndsSession(es, n - 1);
        }
      }
      if KeysAt(es, n).user.Some? {
        if ReplyAt(es, n - 1).LoggedIn? {
          assert SignedInBy(es, n - 1, n);
        } else {
          var i :| 0 <= i < n - 1 && SignedInBy(es, i, n - 1);
          assert SignedInBy(es, i, n);
        }
      }
    }
  }
}
