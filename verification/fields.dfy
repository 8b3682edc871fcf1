/** The field names a notification carries (`NotificationField`) and the
    notification types the sink recognises (`Type`). */
module Fields {

  // NotificationField
  const TYPE: string := "type"
  const TIMESTAMP: string := "timestamp"
  const APP: string := "appId"
  const SCOPE: string := "scopeId"
  const USER: string := "userId"
  const SIGNATURE: string := "signature"

  // Type
  const SCOPE_CREATED: string := "ScopeCreated"
  const SCOPE_DELETED: string := "ScopeDeleted"
  const SCOPE_JOINED: string := "ScopeJoined"
  const SCOPE_LEFT: string := "ScopeLeft"

  /** The `type` values that reach a handling branch. */
  const KNOWN_TYPES: set<string> := {SCOPE_CREATED, SCOPE_DELETED, SCOPE_JOINED, SCOPE_LEFT}
}
