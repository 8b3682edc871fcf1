/** `handle_notification`: check the signature, then check the timestamp,
    then branch on the notification type.

    The Python function returns `True`, `False` or `None`, or raises
    `ValueError` when the timestamp cannot be converted. `Outcome` records
    which of these happened, and why:
      Handled(event)   -- `True`; `event` is the branch that was reached,
                          with the `appId`, `scopeId` and `userId` it reads
      Refused(reason)  -- `False`
      NoType           -- `None`: the type is missing and the function
                          falls off its end
      BadTimestamp(ts) -- the conversion of the timestamp `ts` raised.
    Two library calls are parameters: `hash` is the SHA-256 hex digest, and
    `timestampOk(ts)` says whether `float(ts)` and
    `datetime.utcfromtimestamp` of the result both succeed. */
module Notifications {
  import opened KeyOrder
  import opened Fields
  import opened Signing

  datatype Option<T> = None | Some(value: T)

  /** `fields.get(name)` */
  function Get(fields: map<string, string>, name: string): (r: Option<string>)
    ensures r.Some? <==> name in fields
    ensures r.Some? ==> r.value == fields[name]
  {
    if name in fields then Some(fields[name]) else None
  }

  /** The four handling branches and the identifiers each one receives. */
  datatype Event =
    | ScopeCreated(app: Option<string>, scope: Option<string>)
    | ScopeDeleted(app: Option<string>, scope: Option<string>)
    | ScopeJoined(app: Option<string>, scope: Option<string>, user: Option<string>)
    | ScopeLeft(app: Option<string>, scope: Option<string>, user: Option<string>)

  /** The `Type` constant that selects the branch of an event. */
  function TypeName(e: Event): string
  {
    match e
    case ScopeCreated(_, _) => SCOPE_CREATED
    case ScopeDeleted(_, _) => SCOPE_DELETED
    case ScopeJoined(_, _, _) => SCOPE_JOINED
    case ScopeLeft(_, _, _) => SCOPE_LEFT
  }

  datatype Refusal = MissingSignature | WrongSignature | UnknownType(name: string)

  datatype Outcome =
    | Handled(event: Event)
    | Refused(reason: Refusal)
    | NoType
    | BadTimestamp(timestamp: string)

  /** The notification carries a `signature` equal to `sign(api_key, fields)`. */
  predicate Authentic(hash: string -> string, apiKey: string, fields: map<string, string>)
  {
    SIGNATURE in fields && fields[SIGNATURE] == Signature(hash, apiKey, fields)
  }

  /** The part of `handle_notification` after the signature check: the
      timestamp conversion, then the branch on `type`. */
  function Dispatch(timestampOk: string -> bool, fields: map<string, string>): (r: Outcome)
    ensures r.BadTimestamp? <==> TIMESTAMP in fields && !timestampOk(fields[TIMESTAMP])
    ensures r.BadTimestamp? ==> r.timestamp == fields[TIMESTAMP]
    ensures r == NoType <==> !r.BadTimestamp? && TYPE !in fields
    ensures r.Handled? <==> !r.BadTimestamp? && TYPE in fields && fields[TYPE] in KNOWN_TYPES
    ensures r.Handled? ==> TypeName(r.event) == fields[TYPE]
    ensures r.Handled? ==> r.event.app == Get(fields, APP) && r.event.scope == Get(fields, SCOPE)
    ensures r.Handled? && (r.event.ScopeJoined? || r.event.ScopeLeft?) ==> r.event.user == Get(fields, USER)
    ensures r.Refused? <==> !r.BadTimestamp? && TYPE in fields && fields[TYPE] !in KNOWN_TYPES
    ensures r.Refused? ==> r.reason == UnknownType(fields[TYPE])
  {
    var app, scope, user := Get(fields, APP), Get(fields, SCOPE), Get(fields, USER);
    if TIMESTAMP in fields && !timestampOk(fields[TIMESTAMP]) then BadTimestamp(fields[TIMESTAMP])
    else if TYPE !in fields then NoType
    else if fields[TYPE] == SCOPE_CREATED then Handled(ScopeCreated(app, scope))
    else if fields[TYPE] == SCOPE_DELETED then Handled(ScopeDeleted(app, scope))
    else if fields[TYPE] == SCOPE_JOINED then Handled(ScopeJoined(app, scope, user))
    else if fields[TYPE] == SCOPE_LEFT then Handled(ScopeLeft(app, scope, user))
    else Refused(UnknownType(fields[TYPE]))
  }

  /** `handle_notification(fields)` with `app.config['API_KEY']` as `apiKey`. */
  function HandleNotification(hash: string -> string, timestampOk: string -> bool,
                              apiKey: string, fields: map<string, string>): (r: Outcome)
    ensures SIGNATURE !in fields ==> r == Refused(MissingSignature)
    ensures (SIGNATURE in fields && fields[SIGNATURE] != Signature(hash, apiKey, fields))
            ==> r == Refused(WrongSignature)
    ensures Authentic(hash, apiKey, fields) ==> r == Dispatch(timestampOk, fields)
    ensures r.Handled? || r == NoType || r.BadTimestamp? ==> Authentic(hash, apiKey, fields)
  {
    if SIGNATURE !in fields then Refused(MissingSignature)
    else if fields[SIGNATURE] != Signature(hash, apiKey, fields) then Refused(WrongSignature)
    else Dispatch(timestampOk, fields)
  }

  /** Dispatch reads only `type`, `timestamp`, `appId`, `scopeId` and
      `userId`; every other field is ignored. */
  lemma DispatchReadsOnlyItsFields(timestampOk: string -> bool, f: map<string, string>, g: map<string, string>)
    requires forall name :: name in {TYPE, TIMESTAMP, APP, SCOPE, USER} ==> Get(f, name) == Get(g, name)
    ensures Dispatch(timestampOk, f) == Dispatch(timestampOk, g)
  {
    assert Get(f, TYPE) == Get(g, TYPE) && Get(f, TIMESTAMP) == Get(g, TIMESTAMP);
    assert Get(f, APP) == Get(g, APP) && Get(f, SCOPE) == Get(g, SCOPE) && Get(f, USER) == Get(g, USER);
  }

  /** Signing a notification and attaching the signature makes it pass the
      check: it is then dispatched exactly as its unsigned fields are. */
  lemma SignedNotificationDispatched(hash: string -> string, timestampOk: string -> bool,
                                     apiKey: string, fields: map<string, string>)
    requires SIGNATURE !in fields
    ensures var signed := fields[SIGNATURE := Signature(hash, apiKey, fields)];
      HandleNotification(hash, timestampOk, apiKey, signed) == Dispatch(timestampOk, fields)
  {
    var signed := fields[SIGNATURE := Signature(hash, apiKey, fields)];
    assert Authentic(hash, apiKey, signed) by {
      SignatureExcludesItself(hash, apiKey, signed);
      assert signed - {SIGNATURE} == fields;
    }
    assert Dispatch(timestampOk, signed) == Dispatch(timestampOk, fields) by {
      forall name | name in {TYPE, TIMESTAMP, APP, SCOPE, USER}
        ensures Get(signed, name) == Get(fields, name)
      {
        assert name != SIGNATURE;
      }
      DispatchReadsOnlyItsFields(timestampOk, signed, fields);
    }
  }

  /** Replacing the signature of an authentic notification with any other
      value gets it refused. */
  lemma OtherSignatureRefused(hash: string -> string, timestampOk: string -> bool,
                              apiKey: string, fields: map<string, string>, forged: string)
    requires Authentic(hash, apiKey, fields) && forged != fields[SIGNATURE]
    ensures HandleNotification(hash, timestampOk, apiKey, fields[SIGNATURE := forged])
              == Refused(WrongSignature)
  {
    var altered := fields[SIGNATURE := forged];
    SignatureExcludesItself(hash, apiKey, fields);
    SignatureExcludesItself(hash, apiKey, altered);
    assert altered - {SIGNATURE} == fields - {SIGNATURE};
    assert altered[SIGNATURE] == forged != Signature(hash, apiKey, altered);
  }

  /** When distinct texts have distinct digests, changing the value of any
      signed field of an authentic notification gets it refused. */
  lemma AlteredFieldRefused(hash: string -> string, timestampOk: string -> bool,
                            apiKey: string, fields: map<string, string>, name: string, value: string)
    requires forall s, t :: hash(s) == hash(t) ==> s == t
    requires Authentic(hash, apiKey, fields)
    requires name in fields && name != SIGNATURE && value != fields[name]
    ensures HandleNotification(hash, timestampOk, apiKey, fields[name := value])
              == Refused(WrongSignature)
  {
    SignedValueChangesCanonical(apiKey, fields, name, value);
  }

  /** Signing the `ScopeLeft` notification of user "bob" in scope "room1" of
      app "app1" and attaching the signature gets it handled as that
      event. */
  lemma ScopeLeftSignedAndHandled(hash: string -> string, timestampOk: string -> bool)
    ensures var fields := map[TYPE := SCOPE_LEFT, APP := "app1", SCOPE := "room1", USER := "bob"];
      var signed := fields[SIGNATURE := Signature(hash, "secret", fields)];
      HandleNotification(hash, timestampOk, "secret", signed)
        == Handled(ScopeLeft(Some("app1"), Some("room1"), Some("bob")))
  {
    var fields := map[TYPE := SCOPE_LEFT, APP := "app1", SCOPE := "room1", USER := "bob"];
    assert TIMESTAMP !in fields && SIGNATURE !in fields;
    assert Get(fields, APP) == Some("app1") && Get(fields, SCOPE) == Some("room1") && Get(fields, USER) == Some("bob");
    DispatchesTo(timestampOk, fields, SCOPE_LEFT);
    SignedNotificationDispatched(hash, timestampOk, "secret", fields);
  }

  /** An untimed notification of a known type reaches that type's branch. */
  lemma DispatchesTo(timestampOk: string -> bool, fields: map<string, string>, typeName: string)
    requires TIMESTAMP !in fields && TYPE in fields && fields[TYPE] == typeName
    requires typeName in KNOWN_TYPES
    ensures var app, scope, user := Get(fields, APP), Get(fields, SCOPE), Get(fields, USER);
      Dispatch(timestampOk, fields) == match typeName
        case "ScopeCreated" => Handled(ScopeCreated(app, scope))
        case "ScopeDeleted" => Handled(ScopeDeleted(app, scope))
        case "ScopeJoined" => Handled(ScopeJoined(app, scope, user))
        case _ => Handled(ScopeLeft(app, scope, user))
  {
  }

  /** The signed names of {appId, scopeId, type}, in sorted order. */
  lemma SentNames(sent: map<string, string>)
    requires sent.Keys == {APP, SCOPE, TYPE}
    ensures SignedNames(sent) == [APP, SCOPE, TYPE]
  {
    assert Less(APP, SCOPE) && Less(APP, TYPE) && Less(SCOPE, TYPE);
    assert sent.Keys - {SIGNATURE} == {APP, SCOPE, TYPE};
    SortedKeysUnique([APP, SCOPE, TYPE], sent.Keys - {SIGNATURE});
  }

  /** The signed names of {appId, type}, in sorted order. */
  lemma SplicedNames(spliced: map<string, string>)
    requires spliced.Keys == {APP, TYPE}
    ensures SignedNames(spliced) == [APP, TYPE]
  {
    assert Less(APP, TYPE);
    assert spliced.Keys - {SIGNATURE} == {APP, TYPE};
    SortedKeysUnique([APP, TYPE], spliced.Keys - {SIGNATURE});
  }

  lemma EntriesOfTwo(f: map<string, string>, x: string, y: string)
    requires x in f && y in f
    ensures Entries(f, [x, y]) == "\n" + Line(x, f[x]) + "\n" + Line(y, f[y])
  {
    assert [] + [x] == [x] && [x] + [y] == [x, y];
    EntriesSnoc(f, [], x);
    EntriesSnoc(f, [x], y);
  }

  lemma EntriesOfThree(f: map<string, string>, x: string, y: string, z: string)
    requires x in f && y in f && z in f
    ensures Entries(f, [x, y, z]) == "\n" + Line(x, f[x]) + "\n" + Line(y, f[y]) + "\n" + Line(z, f[z])
  {
    EntriesOfTwo(f, x, y);
    assert [x, y] + [z] == [x, y, z];
    EntriesSnoc(f, [x, y], z);
  }

  /** A value that ends in "\n" + a line reads as that line's field. */
  lemma ValueSwallowsLine(prefix: string, name: string, value: string, next: string, nextValue: string)
    ensures prefix + Line(name, value) + "\n" + Line(next, nextValue)
         == prefix + Line(name, value + "\n" + Line(next, nextValue))
  {
  }

  /** The canonical text does not delimit values: a value holding "\n" and
      "=" reads as further fields. The notification {appId: "a",
      scopeId: "s", type: "ScopeCreated"} and the different notification
      {appId: "a\nscopeId=s", type: "ScopeCreated"} have one canonical text,
      so a signature made for the first also authenticates the second, which
      is handled with another app and no scope. */
  lemma SplicedValueKeepsSignature(hash: string -> string, timestampOk: string -> bool, apiKey: string)
    ensures var sent := map[APP := "a", SCOPE := "s", TYPE := SCOPE_CREATED];
      var forged := "a" + "\n" + SCOPE + "=" + "s";
      var spliced := map[APP := forged, TYPE := SCOPE_CREATED];
      && sent != spliced
      && Signature(hash, apiKey, spliced) == Signature(hash, apiKey, sent)
      && HandleNotification(hash, timestampOk, apiKey, spliced[SIGNATURE := Signature(hash, apiKey, sent)])
         == Handled(ScopeCreated(Some(forged), None))
  {
    var sent := map[APP := "a", SCOPE := "s", TYPE := SCOPE_CREATED];
    var forged := "a" + "\n" + SCOPE + "=" + "s";
    var spliced := map[APP := forged, TYPE := SCOPE_CREATED];
    assert SCOPE in sent && SCOPE !in spliced;
    assert TIMESTAMP !in spliced && SIGNATURE !in spliced;
    assert Get(spliced, APP) == Some(forged) && Get(spliced, SCOPE) == None;
    DispatchesTo(timestampOk, spliced, SCOPE_CREATED);
    SentNames(sent);
    SplicedNames(spliced);
    EntriesOfThree(sent, APP, SCOPE, TYPE);
    EntriesOfTwo(spliced, APP, TYPE);
    ValueSwallowsLine("\n", APP, "a", SCOPE, "s");
    assert forged == "a" + "\n" + Line(SCOPE, "s");
    CanonicalForm(apiKey, sent);
    CanonicalForm(apiKey, spliced);
    SignedNotificationDispatched(hash, timestampOk, apiKey, spliced);
  }
}
