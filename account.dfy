/**
 * `AccountManager`: the login ticket, user and API key live in the
 * application settings; the manager's setters only publish the change on
 * the message bus, and a subscriber writes the new value back into the
 * settings. The model fixes that subscriber: a published value is stored at
 * once. Publications are appended to an event log.
 */
module Account {
  import opened Optional

  /** A message the manager publishes. */
  datatype AccountEvent =
    | TicketChanged(ticket: Option<string>)
    | UserChanged(user: Option<string>)
    | ApiKeyChanged(apiKey: Option<string>)
    | PlanStatusChanged(plan: Option<string>)
    | IsLoggedInChanged(loggedIn: bool)

  /** Kotlin's `isNullOrEmpty()`, negated. */
  predicate Present(s: Option<string>)
  {
    s.Some? && s.value != ""
  }

  /** Logged in: both the API key and the user are present. */
  function LoggedIn(apiKey: Option<string>, user: Option<string>): (b: bool)
    ensures b ==> apiKey.Some? && user.Some?
    ensures b <==> Present(apiKey) && Present(user)
  {
    Present(apiKey) && Present(user)
  }

  /** What `checkLoggedInAndNotifyIfNeed` publishes: a login change only when the state flips. */
  function LoginNotice(previous: bool, now: bool): (es: seq<AccountEvent>)
    ensures |es| <= 1
    ensures es == [] <==> previous == now
    ensures es != [] ==> es == [IsLoggedInChanged(now)]
  {
    if previous == now then [] else [IsLoggedInChanged(now)]
  }

  class AccountManager {
    var ticket: Option<string>
    var user: Option<string>
    var apiKey: Option<string>
    var activePlan: Option<string>
    var previousLoggedInState: bool
    /** Everything published, in order. */
    var events: seq<AccountEvent>

    /** The settings as loaded; nothing is published and the login state is not yet recorded. */
    constructor (ticket: Option<string>, user: Option<string>, apiKey: Option<string>)
      ensures this.ticket == ticket && this.user == user && this.apiKey == apiKey
      ensures activePlan == None && !previousLoggedInState && events == []
    {
      this.ticket := ticket;
      this.user := user;
      this.apiKey := apiKey;
      activePlan := None;
      previousLoggedInState := false;
      events := [];
    }

    function IsLoggedIn(): (b: bool)
      reads this
      ensures b <==> Present(apiKey) && Present(user)
    {
      LoggedIn(apiKey, user)
    }

    /** `startup`: records the current login state, publishing nothing. */
    method Startup()
      modifies this`previousLoggedInState
      ensures previousLoggedInState == IsLoggedIn()
    {
      previousLoggedInState := IsLoggedIn();
    }

    method CheckLoggedInAndNotifyIfNeed()
      modifies this`previousLoggedInState, this`events
      ensures previousLoggedInState == IsLoggedIn()
      ensures events == old(events) + LoginNotice(old(previousLoggedInState), IsLoggedIn())
    {
      if previousLoggedInState == IsLoggedIn() {
        return;
      }
      previousLoggedInState := IsLoggedIn();
      events := events + [IsLoggedInChanged(IsLoggedIn())];
    }

    /** The `ticket` setter: nothing for an equal value; otherwise publish, store, and re-check the login. */
    method SetTicket(newTicket: Option<string>)
      modifies this`ticket, this`previousLoggedInState, this`events
      ensures newTicket == old(ticket) ==>
                ticket == old(ticket) && events == old(events) && previousLoggedInState == old(previousLoggedInState)
      ensures newTicket != old(ticket) ==>
                && ticket == newTicket && previousLoggedInState == IsLoggedIn()
                && events == old(events) + [TicketChanged(newTicket)] + LoginNotice(old(previousLoggedInState), IsLoggedIn())
    {
      if newTicket == ticket {
        return;
      }
      events := events + [TicketChanged(newTicket)];
      ticket := newTicket;
      CheckLoggedInAndNotifyIfNeed();
    }

    /** The `user` setter, as `SetTicket`. */
    method SetUser(newUser: Option<string>)
      modifies this`user, this`previousLoggedInState, this`events
      ensures newUser == old(user) ==>
                user == old(user) && events == old(events) && previousLoggedInState == old(previousLoggedInState)
      ensures newUser != old(user) ==>
                && user == newUser && previousLoggedInState == IsLoggedIn()
                && events == old(events) + [UserChanged(newUser)] + LoginNotice(old(previousLoggedInState), IsLoggedIn())
    {
      if newUser == user {
        return;
      }
      events := events + [UserChanged(newUser)];
      user := newUser;
      CheckLoggedInAndNotifyIfNeed();
    }

    /** The `apiKey` setter, as `SetTicket`. */
    method SetApiKey(newApiKey: Option<string>)
      modifies this`apiKey, this`previousLoggedInState, this`events
      ensures newApiKey == old(apiKey) ==>
                apiKey == old(apiKey) && events == old(events) && previousLoggedInState == old(previousLoggedInState)
      ensures newApiKey != old(apiKey) ==>
                && apiKey == newApiKey && previousLoggedInState == IsLoggedIn()
                && events == old(events) + [ApiKeyChanged(newApiKey)] + LoginNotice(old(previousLoggedInState), IsLoggedIn())
    {
      if newApiKey == apiKey {
        return;
      }
      events := events + [ApiKeyChanged(newApiKey)];
      apiKey := newApiKey;
      CheckLoggedInAndNotifyIfNeed();
    }

    /** The `activePlan` setter: stores itself, and publishes only a change. */
    method SetActivePlan(newPlan: Option<string>)
      modifies this`activePlan, this`events
      ensures activePlan == newPlan
      ensures events == if newPlan == old(activePlan) then old(events) else old(events) + [PlanStatusChanged(newPlan)]
    {
      if newPlan == activePlan {
        return;
      }
      activePlan := newPlan;
      events := events + [PlanStatusChanged(newPlan)];
    }

    /**
     * `logout`: the key setter, then the user setter, each with null. Not
     * logged in afterwards; if anything changed, the recorded state agrees,
     * and the published messages are `LogoutEvents`.
     */
    method Logout()
      modifies this`apiKey, this`user, this`previousLoggedInState, this`events
      ensures apiKey == None && user == None && !IsLoggedIn()
      ensures old(apiKey) != None || old(user) != None ==> !previousLoggedInState
      ensures old(apiKey) == None && old(user) == None ==> previousLoggedInState == old(previousLoggedInState)
      ensures events == old(events) + LogoutEvents(old(apiKey), old(user), old(previousLoggedInState))
    {
      SetApiKey(None);
      SetUser(None);
    }
  }

  /**
   * What `logout` publishes from the given settings and recorded state: the
   * key change if there was a key, the user change if there was a user, and a
   * logout notice right after the first of them when the state was logged in.
   */
  function LogoutEvents(apiKey: Option<string>, user: Option<string>, previous: bool): (es: seq<AccountEvent>)
    ensures |es| <= 3
    ensures es == [] <==> apiKey == None && user == None
  {
    var keyEvents := if apiKey != None then [ApiKeyChanged(None)] + LoginNotice(previous, false) else [];
    var afterKey := if apiKey != None then false else previous;
    var userEvents := if user != None then [UserChanged(None)] + LoginNotice(afterKey, false) else [];
    keyEvents + userEvents
  }

  /**
   * `logout` announces the logout exactly once when the recorded state was
   * logged in and something changed, never otherwise, and never announces a
   * login.
   */
  lemma LogoutNoticeOnce(apiKey: Option<string>, user: Option<string>, previous: bool)
    ensures IsLoggedInChanged(true) !in LogoutEvents(apiKey, user, previous)
    ensures multiset(LogoutEvents(apiKey, user, previous))[IsLoggedInChanged(false)]
            == if previous && (apiKey != None || user != None) then 1 else 0
  {
    var es := LogoutEvents(apiKey, user, previous);
    if apiKey != None && user != None {
      if previous {
        assert es == [ApiKeyChanged(None), IsLoggedInChanged(false), UserChanged(None)];
      } else {
        assert es == [ApiKeyChanged(None), UserChanged(None)];
      }
    } else if apiKey != None {
      if previous {
        assert es == [ApiKeyChanged(None), IsLoggedInChanged(false)];
      } else {
        assert es == [ApiKeyChanged(None)];
      }
    } else if user != None {
      if previous {
        assert es == [UserChanged(None), IsLoggedInChanged(false)];
      } else {
        assert es == [UserChanged(None)];
      }
    }
  }
}
