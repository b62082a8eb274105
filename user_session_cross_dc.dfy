/**
 The cross-datacenter user-session lookups: two predicates over a user
 session's authenticated client sessions, and the two queries that pass them,
 with the caller's arguments, to the session provider's predicate-aware
 lookup. The provider itself (local first, remote cache on a miss) is a
 parameter: only the arguments it receives and the pass-through of its
 answer are modelled.
 */
module UserSessionCrossDC {

  import opened Wrappers

  datatype Realm = Realm(id: string)

  /** A client's session inside a user session; its action is nullable. */
  datatype AuthenticatedClientSession = AuthenticatedClientSession(action: Option<string>)

  datatype UserSession = UserSession(
    id: string,
    authenticatedClientSessions: map<string, AuthenticatedClientSession>)

  type SessionPredicate = UserSession -> bool

  /** The arguments of `getUserSessionWithPredicate(realm, id, offline, predicate)`. */
  datatype SessionQuery = SessionQuery(realm: Realm, id: string, offline: bool, condition: SessionPredicate)

  /** The provider's lookup; absence stands for a null result. */
  type SessionLookup = SessionQuery -> Option<UserSession>

  /** `CommonClientSessionModel.Action.CODE_TO_TOKEN.toString()`. */
  const CODE_TO_TOKEN: string := "CODE_TO_TOKEN"

  /** Java's `expected.equals(action)`, false when the action is null. */
  predicate EqualsAction(expected: string, action: Option<string>)
  {
    action == Some(expected)
  }

  /** The session has a client session for `clientUUID`. */
  function HasClientSession(clientUUID: string): (p: SessionPredicate)
    ensures forall s: UserSession :: p(s) <==> clientUUID in s.authenticatedClientSessions
  {
    (userSession: UserSession) => clientUUID in userSession.authenticatedClientSessions
  }

  /**
   The session has a client session for `clientUUID` whose action is
   "CODE_TO_TOKEN"; a missing client session or a null action gives false.
   */
  function HasCodeToTokenClientSession(clientUUID: string): (p: SessionPredicate)
    ensures forall s: UserSession :: clientUUID !in s.authenticatedClientSessions ==> !p(s)
    ensures forall s: UserSession :: p(s) <==>
      clientUUID in s.authenticatedClientSessions &&
      s.authenticatedClientSessions[clientUUID].action == Some(CODE_TO_TOKEN)
    ensures forall s: UserSession :: p(s) ==> HasClientSession(clientUUID)(s)
  {
    (userSession: UserSession) =>
      var authSessions := userSession.authenticatedClientSessions;
      if clientUUID !in authSessions then false
      else EqualsAction(CODE_TO_TOKEN, authSessions[clientUUID].action)
  }

  /** The query `getUserSessionWithClient` issues: the caller's `offline` flag, unchanged. */
  function WithClientQuery(realm: Realm, id: string, offline: bool, clientUUID: string): (q: SessionQuery)
    ensures q.realm == realm && q.id == id && q.offline == offline
    ensures forall s: UserSession :: q.condition(s) <==> clientUUID in s.authenticatedClientSessions
  {
    SessionQuery(realm, id, offline, HasClientSession(clientUUID))
  }

  /** The query `getUserSessionWithClientAndCodeToTokenAction` issues: always online. */
  function WithClientAndCodeToTokenActionQuery(realm: Realm, id: string, clientUUID: string): (q: SessionQuery)
    ensures q.realm == realm && q.id == id && !q.offline
    ensures forall s: UserSession :: q.condition(s) <==>
      clientUUID in s.authenticatedClientSessions &&
      s.authenticatedClientSessions[clientUUID].action == Some(CODE_TO_TOKEN)
  {
    SessionQuery(realm, id, false, HasCodeToTokenClientSession(clientUUID))
  }

  /** Returns the provider's answer to the query, untranslated and unfiltered. */
  function GetUserSessionWithClient(lookup: SessionLookup, realm: Realm, id: string, offline: bool, clientUUID: string): (r: Option<UserSession>)
    ensures r == lookup(WithClientQuery(realm, id, offline, clientUUID))
  {
    lookup(SessionQuery(realm, id, offline, HasClientSession(clientUUID)))
  }

  /** Returns the provider's answer to the query, untranslated and unfiltered. */
  function GetUserSessionWithClientAndCodeToTokenAction(lookup: SessionLookup, realm: Realm, id: string, clientUUID: string): (r: Option<UserSession>)
    ensures r == lookup(WithClientAndCodeToTokenActionQuery(realm, id, clientUUID))
  {
    lookup(SessionQuery(realm, id, false, HasCodeToTokenClientSession(clientUUID)))
  }

}
