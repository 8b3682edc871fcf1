/** `sign`: the canonical text of a notification and its digest.

    The canonical text is the API key, then one `name=value` line per field
    except `signature`, in ascending order of field name, joined by "\n".
    The SHA-256 hex digest is a parameter `hash` of every member that
    applies it, so nothing here depends on what the digest is. */
module Signing {
  import opened KeyOrder
  import opened Fields

  /** The line `'{0}={1}'.format(name, value)`. */
  function Line(name: string, value: string): string
  {
    name + "=" + value
  }

  /** `sep.join(parts)`: the parts with `sep` between neighbours only. */
  function Join(parts: seq<string>, sep: string): string
    decreases |parts|
  {
    if |parts| == 0 then ""
    else if |parts| == 1 then parts[0]
    else Join(parts[..|parts| - 1], sep) + sep + parts[|parts| - 1]
  }

  /** The joined text is empty for no parts; otherwise it starts with the
      first part and ends with the last, with nothing before or after. */
  lemma {:induction false} JoinEnds(parts: seq<string>, sep: string)
    ensures parts == [] ==> Join(parts, sep) == ""
    ensures parts != [] ==> parts[0] <= Join(parts, sep)
    ensures parts != [] ==> var r, last := Join(parts, sep), parts[|parts| - 1];
      |last| <= |r| && r[|r| - |last|..] == last
    decreases |parts|
  {
    if |parts| > 1 {
      var init := parts[..|parts| - 1];
      JoinEnds(init, sep);
      assert init[0] == parts[0];
      assert Join(parts, sep) == Join(init, sep) + sep + parts[|parts| - 1];
    }
  }

  /** The lines the signing loop appends while it visits `keys` in order:
      one line per key, skipping `signature`. */
  function Lines(fields: map<string, string>, keys: seq<string>): seq<string>
    requires forall k :: k in keys ==> k in fields
  {
    if keys == [] then []
    else
      var last := keys[|keys| - 1];
      Lines(fields, keys[..|keys| - 1])
        + (if last != SIGNATURE then [Line(last, fields[last])] else [])
  }

  /** The canonical text the digest is taken over (the joined
      `unsigned_parts`). */
  function Canonical(apiKey: string, fields: map<string, string>): (c: string)
    ensures apiKey <= c
  {
    var parts := [apiKey] + Lines(fields, SortedKeys(fields.Keys));
    JoinEnds(parts, "\n");
    Join(parts, "\n")
  }

  /** `sign(api_key, fields)` as a value, for the members that cannot call
      the method `Sign`. */
  function Signature(hash: string -> string, apiKey: string, fields: map<string, string>): string
  {
    hash(Canonical(apiKey, fields))
  }

  /** `sign`: visits the sorted field names, collecting one line per field
      other than `signature` after the API key, and digests the joined
      lines. */
  method Sign(hash: string -> string, apiKey: string, fields: map<string, string>)
    returns (signature: string)
    ensures signature == hash(Canonical(apiKey, fields))
  {
    var keys := SortedKeys(fields.Keys);
    var unsignedParts := [apiKey];
    for i := 0 to |keys|
      invariant unsignedParts == [apiKey] + Lines(fields, keys[..i])
    {
      var key := keys[i];
      assert keys[..i + 1][..i] == keys[..i];
      if key != SIGNATURE {
        unsignedParts := unsignedParts + [Line(key, fields[key])];
      }
    }
    assert keys[..|keys|] == keys;
    signature := hash(Join(unsignedParts, "\n"));
  }

  /** The text the fields `names` contribute: "\n" + name + "=" + value for
      each name, in the order given. */
  function Entries(fields: map<string, string>, names: seq<string>): string
    requires forall k :: k in names ==> k in fields
  {
    if names == [] then ""
    else
      var last := names[|names| - 1];
      Entries(fields, names[..|names| - 1]) + "\n" + Line(last, fields[last])
  }

  /** The names that are signed: every field name but `signature`, each
      once, in ascending order. */
  function SignedNames(fields: map<string, string>): (names: seq<string>)
    ensures forall k :: k in names <==> k in fields && k != SIGNATURE
    ensures StrictlySorted(names)
  {
    SortedKeys(fields.Keys - {SIGNATURE})
  }

  lemma AppendAssociative(a: string, b: string, c: string, d: string)
    ensures a + b + c + d == a + (b + c + d)
  {
  }

  lemma JoinSnoc(parts: seq<string>, part: string, sep: string)
    requires parts != []
    ensures Join(parts + [part], sep) == Join(parts, sep) + sep + part
  {
    assert (parts + [part])[..|parts|] == parts;
  }

  lemma EntriesSnoc(fields: map<string, string>, names: seq<string>, name: string)
    requires forall k :: k in names ==> k in fields
    requires name in fields
    ensures Entries(fields, names + [name]) == Entries(fields, names) + "\n" + Line(name, fields[name])
  {
    assert (names + [name])[..|names|] == names;
  }

  lemma {:induction false} JoinLines(apiKey: string, fields: map<string, string>, keys: seq<string>)
    requires forall k :: k in keys ==> k in fields
    ensures Join([apiKey] + Lines(fields, keys), "\n") == apiKey + Entries(fields, Without(keys, SIGNATURE))
    decreases |keys|
  {
    if keys == [] {
      assert [apiKey] + Lines(fields, keys) == [apiKey];
    } else {
      var init, last := keys[..|keys| - 1], keys[|keys| - 1];
      JoinLines(apiKey, fields, init);
      var w := Without(init, SIGNATURE);
      if last != SIGNATURE {
        var line := Line(last, fields[last]);
        var parts := [apiKey] + Lines(fields, init);
        assert keys[..|keys| - 1] == init;
        assert [apiKey] + Lines(fields, keys) == parts + [line];
        assert Without(keys, SIGNATURE) == w + [last];
        calc {
          Join([apiKey] + Lines(fields, keys), "\n");
          Join(parts + [line], "\n");
          { JoinSnoc(parts, line, "\n"); }
          Join(parts, "\n") + "\n" + line;
          apiKey + Entries(fields, w) + "\n" + line;
          { AppendAssociative(apiKey, Entries(fields, w), "\n", line); }
          apiKey + (Entries(fields, w) + "\n" + line);
          { EntriesSnoc(fields, w, last); }
          apiKey + Entries(fields, w + [last]);
        }
      } else {
        assert keys[..|keys| - 1] == init;
        assert Lines(fields, keys) == Lines(fields, init);
        assert Without(keys, SIGNATURE) == w;
      }
    }
  }

  /** The canonical text is the API key followed by one
      "\n" + name + "=" + value segment per field other than `signature`,
      in ascending order of name; nothing follows the last value. */
  lemma CanonicalForm(apiKey: string, fields: map<string, string>)
    ensures Canonical(apiKey, fields) == apiKey + Entries(fields, SignedNames(fields))
  {
    var keys := SortedKeys(fields.Keys);
    JoinLines(apiKey, fields, keys);
    SortedKeysUnique(Without(keys, SIGNATURE), fields.Keys - {SIGNATURE});
  }

  lemma {:induction false} EntriesAgree(f: map<string, string>, g: map<string, string>, names: seq<string>)
    requires forall k :: k in names ==> k in f && k in g && f[k] == g[k]
    ensures Entries(f, names) == Entries(g, names)
    decreases |names|
  {
    if names != [] {
      EntriesAgree(f, g, names[..|names| - 1]);
    }
  }

  /** The `signature` field is not signed: removing it leaves the signature
      unchanged. */
  lemma SignatureExcludesItself(hash: string -> string, apiKey: string, fields: map<string, string>)
    ensures Signature(hash, apiKey, fields) == Signature(hash, apiKey, fields - {SIGNATURE})
  {
    var rest := fields - {SIGNATURE};
    CanonicalForm(apiKey, fields);
    CanonicalForm(apiKey, rest);
    assert rest.Keys - {SIGNATURE} == fields.Keys - {SIGNATURE};
    EntriesAgree(fields, rest, SignedNames(fields));
  }

  lemma {:induction false} EntriesAppend(f: map<string, string>, a: seq<string>, b: seq<string>)
    requires forall k :: k in a + b ==> k in f
    ensures Entries(f, a + b) == Entries(f, a) + Entries(f, b)
    decreases |b|
  {
    if b == [] {
      assert a + b == a;
    } else {
      var init, last := b[..|b| - 1], b[|b| - 1];
      assert (a + b)[..|a + b| - 1] == a + init;
      assert (a + b)[|a + b| - 1] == last;
      EntriesAppend(f, a, init);
      var line := "\n" + Line(last, f[last]);
      assert Entries(f, a + b) == Entries(f, a + init) + line;
      assert Entries(f, b) == Entries(f, init) + line;
    }
  }

  lemma MiddleDiffers(c: string, a: string, m: string, x: string, y: string, b: string)
    requires x != y
    ensures c + (a + (m + x) + b) != c + (a + (m + y) + b)
  {
    var at := |c| + |a| + |m|;
    assert (c + (a + (m + x) + b))[at..at + |x|] == x;
    assert (c + (a + (m + y) + b))[at..at + |y|] == y;
  }

  /** The entries around the i-th name: those before it, its own, and
      those after it. */
  lemma EntriesAround(fields: map<string, string>, names: seq<string>, i: nat)
    requires forall k :: k in names ==> k in fields
    requires i < |names|
    ensures Entries(fields, names)
      == Entries(fields, names[..i]) + ("\n" + Line(names[i], fields[names[i]]))
         + Entries(fields, names[i + 1..])
  {
    var pre, name, post := names[..i], names[i], names[i + 1..];
    assert names == (pre + [name]) + post;
    EntriesAppend(fields, pre + [name], post);
    EntriesAppend(fields, pre, [name]);
    EntriesSingle(fields, name);
  }

  lemma EntriesSingle(fields: map<string, string>, name: string)
    requires name in fields
    ensures Entries(fields, [name]) == "\n" + Line(name, fields[name])
  {
    assert [name][..0] == [];
  }

  /** The canonical text around the i-th signed field: what precedes its
      value, the value, and what follows. */
  lemma CanonicalAround(apiKey: string, fields: map<string, string>, i: nat)
    requires i < |SignedNames(fields)|
    ensures var names := SignedNames(fields);
      Canonical(apiKey, fields)
        == apiKey + (Entries(fields, names[..i]) + ("\n" + Line(names[i], fields[names[i]]))
                     + Entries(fields, names[i + 1..]))
  {
    CanonicalForm(apiKey, fields);
    EntriesAround(fields, SignedNames(fields), i);
  }

  /** A name occurs once in the signed names. */
  lemma SignedNameOnce(fields: map<string, string>, i: nat)
    requires i < |SignedNames(fields)|
    ensures var names := SignedNames(fields);
      names[i] !in names[..i] && names[i] !in names[i + 1..]
  {
    var names := SignedNames(fields);
    LessIrreflexive(names[i]);
  }

  /** A line segment is its name part followed by the value. */
  lemma LineAfterName(name: string, value: string)
    ensures "\n" + Line(name, value) == ("\n" + name + "=") + value
  {
  }

  /** Every signed value is bound by the canonical text: giving one field
      other than `signature` a different value changes the text. */
  lemma SignedValueChangesCanonical(apiKey: string, fields: map<string, string>, name: string, value: string)
    requires name in fields && name != SIGNATURE && value != fields[name]
    ensures Canonical(apiKey, fields[name := value]) != Canonical(apiKey, fields)
  {
    var g := fields[name := value];
    assert g.Keys - {SIGNATURE} == fields.Keys - {SIGNATURE};
    var names := SignedNames(fields);
    assert SignedNames(g) == names;
    var i :| 0 <= i < |names| && names[i] == name;
    SignedNameOnce(fields, i);
    EntriesAgree(fields, g, names[..i]);
    EntriesAgree(fields, g, names[i + 1..]);
    CanonicalAround(apiKey, fields, i);
    CanonicalAround(apiKey, g, i);
    assert g[name] == value;
    LineAfterName(name, value);
    LineAfterName(name, fields[name]);
    MiddleDiffers(apiKey, Entries(fields, names[..i]), "\n" + name + "=", value, fields[name],
                  Entries(fields, names[i + 1..]));
  }

  /** `dict(entries)`: the fields as the transport builds them, pair by pair;
      a later pair overwrites an earlier one with the same name. */
  function FromEntries(entries: seq<(string, string)>): map<string, string>
  {
    if entries == [] then map[]
    else
      var last := entries[|entries| - 1];
      FromEntries(entries[..|entries| - 1])[last.0 := last.1]
  }

  ghost predicate DistinctNames(entries: seq<(string, string)>)
  {
    forall i, j :: 0 <= i < j < |entries| ==> entries[i].0 != entries[j].0
  }

  /** With distinct names, every pair's value is what the dict holds. */
  lemma {:induction false} FromEntriesValues(entries: seq<(string, string)>)
    requires DistinctNames(entries)
    ensures forall p :: p in entries ==> p.0 in FromEntries(entries) && FromEntries(entries)[p.0] == p.1
    decreases |entries|
  {
    if entries != [] {
      var init, last := entries[..|entries| - 1], entries[|entries| - 1];
      assert entries == init + [last];
      FromEntriesValues(init);
      forall p | p in init
        ensures p.0 != last.0
      {
        var i :| 0 <= i < |init| && init[i] == p;
        assert entries[i] == p;
      }
    }
  }

  /** Every name in the dict comes from some pair. */
  lemma {:induction false} FromEntriesKeys(entries: seq<(string, string)>)
    ensures forall k :: k in FromEntries(entries) ==> exists p :: p in entries && p.0 == k
    decreases |entries|
  {
    if entries != [] {
      var init, last := entries[..|entries| - 1], entries[|entries| - 1];
      assert entries == init + [last];
      FromEntriesKeys(init);
      assert FromEntries(entries) == FromEntries(init)[last.0 := last.1];
      forall k | k in FromEntries(entries)
        ensures exists p :: p in entries && p.0 == k
      {
        if k != last.0 {
          var p :| p in init && p.0 == k;
          assert p in entries;
        } else {
          assert last in entries;
        }
      }
    }
  }

  /** The signature depends on which name/value pairs a notification holds,
      not on the order in which they were inserted. This is a property of
      the dictionary: two insertion orders of distinct names give one map.
      That `sorted` then fixes the order in which the fields are visited is
      `SortedKeysUnique`, which `CanonicalForm` uses. */
  lemma SignatureIgnoresInsertionOrder(hash: string -> string, apiKey: string,
                                       e1: seq<(string, string)>, e2: seq<(string, string)>)
    requires DistinctNames(e1) && DistinctNames(e2)
    requires forall p :: p in e1 <==> p in e2
    ensures Signature(hash, apiKey, FromEntries(e1)) == Signature(hash, apiKey, FromEntries(e2))
  {
    FromEntriesValues(e1);
    FromEntriesValues(e2);
    FromEntriesKeys(e1);
    FromEntriesKeys(e2);
    var m1, m2 := FromEntries(e1), FromEntries(e2);
    forall k | k in m1
      ensures k in m2 && m1[k] == m2[k]
    {
      var p :| p in e1 && p.0 == k;
    }
    forall k | k in m2
      ensures k in m1
    {
      var p :| p in e2 && p.0 == k;
    }
    assert m1 == m2;
  }
}
