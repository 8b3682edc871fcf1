# Notification sink: signing and handling, in Dafny

This project models the core of an AddLive notification sink
(`python_flask_sink.py`). The sink is a small Flask application that receives
event notifications about scopes: created, deleted, joined and left. The
model covers its two core functions.

The source is Python 2 code, and the model follows Python 2 semantics. A
`str` is a byte string there, so `hashlib.sha256` accepts the joined text at
line 45. Under Python 3 that call raises `TypeError` on every text, and no
notification could authenticate.

- `sign(api_key, fields)` builds a canonical text and digests it. The text
  is the API key, then one `name=value` line per field other than
  `signature`, in ascending order of field name, joined by `"\n"`.
- `handle_notification(fields)` runs three steps in order. It refuses a
  notification whose `signature` field is missing or differs from
  `sign(API_KEY, fields)`. It converts `timestamp` when one is present. It
  then branches on `type`: the four known types return `True`, an unknown
  type returns `False`, and a missing type returns `None`.

Modules:

- `Fields` (`fields.dfy`) holds the constants of the classes
  `NotificationField` and `Type`.
- `KeyOrder` (`key_order.dfy`) models Python's string order, which compares
  by code point and puts a prefix first. On narrow Python 2 builds a
  `unicode` value compares by UTF-16 code unit instead. That difference
  cannot show here, because a non-ASCII name or value already makes line 44
  raise, as "## Left out" says. It also models `sorted()` of a set of
  field names (`SortedKeys`) and proves that the ascending listing of a set
  is unique.
- `Signing` (`signing.dfy`) models `sign`. The method `Sign` keeps the
  source's loop over the sorted keys. The function `Canonical` specifies the
  text that loop builds, and the lemmas state the properties of that text.
- `Notifications` (`notifications.dfy`) models `handle_notification` as the
  function `HandleNotification`. It returns an `Outcome`:
  - `Handled(event)` is `return True`. The event records which branch was
    reached and the `fields.get` of `appId`, `scopeId` and `userId` that the
    branch reads.
  - `Refused(reason)` is `return False`. The reason is a missing signature,
    a wrong signature or an unknown type.
  - `NoType` is the implicit `None`.
  - `BadTimestamp(ts)` is the `ValueError` raised while converting the
    timestamp.

Two library calls are parameters, so every result holds whatever they
compute:
- `hash: string -> string` stands for `hashlib.sha256(...).hexdigest()`.
- `timestampOk: string -> bool` says whether `float(ts)` and then
  `datetime.utcfromtimestamp` both succeed.

The API key is a parameter too. The source reads it from
`app.config['API_KEY']`, which is `''` by default.

Three points of the code shape the model:
- The signature comparison at line 102 is plain `!=`, not a constant-time
  comparison. The model compares values only.
- The timestamp is converted (lines 121-123) before the type is examined
  (line 125). So an authentic notification with no type and a malformed
  timestamp raises; it does not return `None`.
- The branches only log. They return `True`, `False` or `None`.

The model also shows a property of the signing scheme itself. Values are
not escaped in the canonical text. A value that contains `"\n"` and `=`
therefore reads like further fields. So two different notifications can
share one canonical text, and one signature authenticates both
(`SplicedValueKeepsSignature`).

## Model

| member | source | states |
|---|---|---|
| `KeyOrder.LessIrreflexive` | python_flask_sink.py:40 | no name sorts before itself under Python's string order `<` |
| `KeyOrder.LessTransitive` | python_flask_sink.py:40 | Python's string order `<` is transitive |
| `KeyOrder.LessAsymmetric` | python_flask_sink.py:40 | no two names each sort before the other |
| `KeyOrder.LessTotal` | python_flask_sink.py:40 | any two distinct names are ordered one way or the other, so `sorted` has one answer |
| `KeyOrder.SortedKeys` | python_flask_sink.py:40 | `sorted(fields.keys())` lists exactly the field names, each once, strictly ascending in Python's string order |
| `KeyOrder.SortedKeysUnique` | python_flask_sink.py:40 | every strictly ascending listing of a set of names is the one `sorted` returns, so the visiting order depends only on which names are present |
| `Signing.JoinEnds` | python_flask_sink.py:45 | `sep.join(parts)` is empty for no parts; otherwise it starts with the first part and ends with the last |
| `Signing.Canonical` | python_flask_sink.py:41-45 | the joined `unsigned_parts` text starts with the API key |
| `Signing.Sign` | python_flask_sink.py:30-45 | the loop over the sorted keys collects the API key and one `name=value` line per field other than `signature`; the digest of their `"\n"` join is `hash(Canonical(apiKey, fields))` |
| `Signing.SignedNames` | python_flask_sink.py:40-44 | the names that get a line are every field name except `signature`, each once, strictly ascending |
| `Signing.CanonicalForm` | python_flask_sink.py:40-45 | the canonical text is the API key, then `"\n" + name + "=" + value` for each signed name in ascending order, and nothing after the last value |
| `Signing.SignatureExcludesItself` | python_flask_sink.py:43 | for every key and field map, removing the `signature` field leaves `sign` unchanged |
| `Signing.SignedValueChangesCanonical` | python_flask_sink.py:41-45 | giving any field other than `signature` a different value changes the canonical text |
| `Signing.SignatureIgnoresInsertionOrder` | python_flask_sink.py:40 | two dicts built from the same name/value pairs (distinct names), inserted in any orders, have the same signature; this rests on the dictionary holding one map for both orders, while the independence of the visiting order from insertion order is `KeyOrder.SortedKeysUnique` through `Signing.CanonicalForm` |
| `Notifications.Get` | python_flask_sink.py:115-119 | `fields.get(name)` is present exactly when the name is a field, and then holds that field's value |
| `Notifications.Dispatch` | python_flask_sink.py:114-158 | after the signature check: the timestamp conversion fails exactly when a present timestamp does not convert, and then no type branch is reached; otherwise a missing type gives `None`, a type among the four constants gives `True` with the branch of that type and the `appId`/`scopeId`/`userId` it reads, and any other type gives `False` |
| `Notifications.HandleNotification` | python_flask_sink.py:90-158 | no `signature` gives `False`; a `signature` different from `sign(API_KEY, fields)` gives `False`; in both cases no timestamp or type handling happens. An authentic notification is dispatched, and only an authentic one reaches `True`, `None` or the timestamp error |
| `Notifications.DispatchReadsOnlyItsFields` | python_flask_sink.py:115-119 | the handling after the signature check depends only on `type`, `timestamp`, `appId`, `scopeId` and `userId` |
| `Notifications.SignedNotificationDispatched` | python_flask_sink.py:99-108 | attaching `sign(API_KEY, fields)` as the `signature` of a notification makes it pass the check, and it is then handled exactly as its unsigned fields are |
| `Notifications.OtherSignatureRefused` | python_flask_sink.py:100-108 | replacing the signature of an authentic notification by any other value gets it refused as a wrong signature |
| `Notifications.AlteredFieldRefused` | python_flask_sink.py:100-108 | when the digest is injective, changing the value of any signed field of an authentic notification gets it refused as a wrong signature |
| `Notifications.ScopeLeftSignedAndHandled` | python_flask_sink.py:147-151 | the `ScopeLeft` notification of user `bob` in scope `room1` of app `app1`, signed with key `secret`, is handled as that event |
| `Notifications.SplicedValueKeepsSignature` | python_flask_sink.py:41-45 | {appId: `a`, scopeId: `s`, type: `ScopeCreated`} and {appId: `a` + `"\n"` + `scopeId=s`, type: `ScopeCreated`} have the same signature under every key, and the second, carrying the first's signature, is handled with that app and no scope |

## Left out

- The Flask application and its routes are not modelled: `json_sink`,
  `xml_sink` (a TODO that only logs), `post_sink`, `get_sink`, the
  `__main__` runner and the `DEBUG`, `HOST` and `PORT` settings. They are
  HTTP plumbing. So is `abort(400)`, which `json_sink` raises when
  `handle_notification` raises `ValueError`.
- Logging (`app.logger`) is left out. It does not affect any return value.
- SHA-256 and `hexdigest` are not modelled. The parameter `hash` stands for
  them.
- `Signing.Sign` and `Notifications.HandleNotification` do not model the
  Python 2 `UnicodeEncodeError`. The JSON and form transports hand over
  `unicode` names and values. When a name or a signed value holds a
  non-ASCII character, line 44 raises while formatting it into a byte
  `str`. So a notification that carries a `signature` and such a field makes
  `handle_notification` raise, where the model refuses it as a wrong
  signature or dispatches it. The model misses this because `Line` is
  total. Likewise, a non-ASCII `unicode` API key makes line 45 raise while
  hashing, and the model misses that because `hash` is total.
- `float` and `datetime.utcfromtimestamp` are not modelled. The parameter
  `timestampOk` stands for "both succeed". The converted time is only logged,
  so the model does not compute it.
- Field values are strings only. JSON bodies can carry numbers, `null` or
  nested values. In Python a `null` type or timestamp reads as absent, and a
  non-string signature never equals the digest. Those cases are not in the
  model.
- Multi-valued form fields of `request.values` are not modelled. The model
  takes one value per name.
- Timing of the signature comparison is not modelled. The model states only
  the outcome of the comparison.
