// Reduction of task results to a small JSON object with known keys.
module Sanitization {
  import opened Wrappers

  // What a task may return. A mapping lists its entries in order, each key by
  // its text; `Other` stands for any object rendered with its text.
  datatype Value =
    | Null
    | Bool(flag: bool)
    | Int(number: int)
    | Float(amount: real)
    | Str(text: string)
    | DateTime(iso: string)
    | Mapping(entries: seq<Entry>)
    | Sequence(items: seq<Value>)
    | Other(rendering: string)

  datatype Entry = Entry(key: string, value: Value)

  const SAFE_KEYS: set<string> := {
    "application_id", "applications", "batch_size", "created", "deleted", "flavor_changes", "machine_id", "machines",
    "provider_id", "providers", "provisioners", "skipped", "status", "synced", "total", "updated"
  }

  /* Dictionaries with text keys */

  predicate HasKey(entries: seq<Entry>, key: string) {
    exists i :: 0 <= i < |entries| && entries[i].key == key
  }

  // Assigning a key overwrites its value in place or appends it.
  function Put(entries: seq<Entry>, key: string, value: Value): seq<Entry> {
    if entries == [] then [Entry(key, value)]
    else if entries[0].key == key then [Entry(key, value)] + entries[1..]
    else [entries[0]] + Put(entries[1..], key, value)
  }

  // The value under a key; later entries win.
  function Get(entries: seq<Entry>, key: string): Option<Value> {
    if entries == [] then None
    else if entries[|entries| - 1].key == key then Some(entries[|entries| - 1].value)
    else Get(entries[..|entries| - 1], key)
  }

  predicate UniqueKeys(entries: seq<Entry>) {
    forall i, j :: 0 <= i < j < |entries| ==> entries[i].key != entries[j].key
  }

  lemma HasKeyUnfolds(entries: seq<Entry>, key: string)
    requires entries != []
    ensures HasKey(entries, key) <==> entries[0].key == key || HasKey(entries[1..], key)
  {
    if HasKey(entries, key) {
      var i :| 0 <= i < |entries| && entries[i].key == key;
      if i > 0 { assert entries[1..][i - 1].key == key; }
    }
    if HasKey(entries[1..], key) {
      var i :| 0 <= i < |entries[1..]| && entries[1..][i].key == key;
      assert entries[i + 1].key == key;
    }
  }

  // Put either changes the value of one entry or appends a new one.
  lemma {:induction false} PutFacts(entries: seq<Entry>, key: string, value: Value)
    ensures var after := Put(entries, key, value);
            if HasKey(entries, key) then
              && |after| == |entries|
              && (forall i :: 0 <= i < |entries| ==> after[i].key == entries[i].key)
              && (forall i :: 0 <= i < |entries| ==> after[i] == Entry(key, value) || after[i] == entries[i])
            else
              after == entries + [Entry(key, value)]
  {
    if entries == [] {
    } else if entries[0].key == key {
      assert HasKey(entries, key);
    } else {
      var rest := entries[1..];
      PutFacts(rest, key, value);
      HasKeyUnfolds(entries, key);
      var after := Put(rest, key, value);
      assert forall i :: 0 < i < |entries| ==> entries[i] == rest[i - 1];
      assert forall i :: 0 < i < |after| + 1 ==> Put(entries, key, value)[i] == after[i - 1];
      if !HasKey(rest, key) {
        assert Put(entries, key, value) == entries + [Entry(key, value)];
      }
    }
  }

  lemma {:induction false} PutStores(entries: seq<Entry>, key: string, value: Value)
    requires UniqueKeys(entries)
    ensures HasKey(Put(entries, key, value), key)
    ensures forall i :: 0 <= i < |Put(entries, key, value)| && Put(entries, key, value)[i].key == key ==>
              Put(entries, key, value)[i].value == value
  {
    var after := Put(entries, key, value);
    if entries == [] || entries[0].key == key {
      assert after[0].key == key;
    } else {
      var rest := entries[1..];
      assert forall i :: 0 <= i < |rest| ==> rest[i] == entries[i + 1];
      PutStores(rest, key, value);
      assert after == [entries[0]] + Put(rest, key, value);
      HasKeyUnfolds(after, key);
    }
  }

  lemma PutKeepsUnique(entries: seq<Entry>, key: string, value: Value)
    requires UniqueKeys(entries)
    ensures UniqueKeys(Put(entries, key, value))
  {
    PutFacts(entries, key, value);
  }

  /* Sanitizing */

  function SanitizeJson(value: Value): Value
    decreases value
  {
    match value
    case DateTime(iso) => Str(iso)
    case Mapping(entries) => Mapping(SanitizeEntries(value, |entries|))
    case Sequence(items) => Sequence(seq(|items|, i requires 0 <= i < |items| => SanitizeJson(items[i])))
    case Other(rendering) => Str(rendering)
    case _ => value
  }

  // The comprehension over the first `n` entries of a mapping.
  function SanitizeEntries(value: Value, n: nat): seq<Entry>
    requires value.Mapping? && n <= |value.entries|
    decreases value, n
  {
    if n == 0 then []
    else
      var before := SanitizeEntries(value, n - 1);
      var entry := value.entries[n - 1];
      if entry.key in SAFE_KEYS then Put(before, entry.key, SanitizeJson(entry.value)) else before
  }

  // A JSON value whose objects carry only allow-listed keys, at every depth.
  predicate Clean(value: Value)
    decreases value
  {
    match value
    case DateTime(_) => false
    case Other(_) => false
    case Mapping(entries) =>
      && UniqueKeys(entries)
      && forall i :: 0 <= i < |entries| ==> entries[i].key in SAFE_KEYS && Clean(entries[i].value)
    case Sequence(items) => forall i :: 0 <= i < |items| ==> Clean(items[i])
    case _ => true
  }

  predicate CleanEntries(entries: seq<Entry>) {
    UniqueKeys(entries) && forall i :: 0 <= i < |entries| ==> entries[i].key in SAFE_KEYS && Clean(entries[i].value)
  }

  lemma {:induction false} SanitizedIsClean(value: Value)
    ensures Clean(SanitizeJson(value))
    decreases value
  {
    match value
    case Mapping(entries) => SanitizedEntriesAreClean(value, |entries|);
    case Sequence(items) =>
      forall i | 0 <= i < |items| ensures Clean(SanitizeJson(items[i])) {
        SanitizedIsClean(items[i]);
      }
    case _ =>
  }

  lemma PutKeepsClean(entries: seq<Entry>, key: string, value: Value)
    requires CleanEntries(entries) && key in SAFE_KEYS && Clean(value)
    ensures CleanEntries(Put(entries, key, value))
  {
    PutFacts(entries, key, value);
    PutKeepsUnique(entries, key, value);
    var after := Put(entries, key, value);
    forall i | 0 <= i < |after| ensures after[i].key in SAFE_KEYS && Clean(after[i].value) {
      assert after[i] == Entry(key, value) || (i < |entries| && after[i] == entries[i]);
    }
  }

  lemma {:induction false} SanitizedEntriesAreClean(value: Value, n: nat)
    requires value.Mapping? && n <= |value.entries|
    ensures CleanEntries(SanitizeEntries(value, n))
    decreases value, n
  {
    if n > 0 {
      SanitizedEntriesAreClean(value, n - 1);
      var entry := value.entries[n - 1];
      if entry.key in SAFE_KEYS {
        SanitizedIsClean(entry.value);
        PutKeepsClean(SanitizeEntries(value, n - 1), entry.key, SanitizeJson(entry.value));
      }
    }
  }

  lemma {:induction false} CleanIsFixed(value: Value)
    requires Clean(value)
    ensures SanitizeJson(value) == value
    decreases value
  {
    match value
    case Mapping(entries) => CleanEntriesAreFixed(value, |entries|);
    case Sequence(items) =>
      forall i | 0 <= i < |items| ensures SanitizeJson(items[i]) == items[i] {
        CleanIsFixed(items[i]);
      }
      assert SanitizeJson(value).items == items;
    case _ =>
  }

  lemma {:induction false} CleanEntriesAreFixed(value: Value, n: nat)
    requires value.Mapping? && n <= |value.entries| && Clean(value)
    ensures SanitizeEntries(value, n) == value.entries[..n]
    decreases value, n
  {
    if n > 0 {
      CleanEntriesAreFixed(value, n - 1);
      var before := value.entries[..n - 1];
      var entry := value.entries[n - 1];
      CleanIsFixed(entry.value);
      PutFacts(before, entry.key, entry.value);
      forall i | 0 <= i < |before| ensures before[i].key != entry.key {
        assert before[i] == value.entries[i];
      }
      assert value.entries[..n] == before + [entry];
    }
  }

  // The values sanitizing leaves alone are exactly the clean ones.
  lemma FixedExactlyWhenClean(value: Value)
    ensures SanitizeJson(value) == value <==> Clean(value)
  {
    SanitizedIsClean(value);
    if Clean(value) {
      CleanIsFixed(value);
    }
  }

  lemma {:induction false} GetIsLast(entries: seq<Entry>, key: string)
    ensures Get(entries, key).None? <==> !HasKey(entries, key)
    ensures UniqueKeys(entries) ==>
              forall i :: 0 <= i < |entries| && entries[i].key == key ==> Get(entries, key) == Some(entries[i].value)
  {
    if entries != [] {
      var rest := entries[..|entries| - 1];
      GetIsLast(rest, key);
      if HasKey(entries, key) && entries[|entries| - 1].key != key {
        var i :| 0 <= i < |entries| && entries[i].key == key;
        assert rest[i].key == key;
      }
      forall i | 0 <= i < |rest| ensures rest[i] == entries[i] {
      }
    }
  }

  lemma GetPut(entries: seq<Entry>, key: string, value: Value, other: string)
    requires UniqueKeys(entries)
    ensures Get(Put(entries, key, value), other) == if other == key then Some(value) else Get(entries, other)
  {
    var after := Put(entries, key, value);
    PutFacts(entries, key, value);
    PutStores(entries, key, value);
    PutKeepsUnique(entries, key, value);
    GetIsLast(after, other);
    GetIsLast(entries, other);
    if other == key {
      var i :| 0 <= i < |after| && after[i].key == key;
      assert Get(after, key) == Some(after[i].value);
    } else if HasKey(entries, other) {
      var i :| 0 <= i < |entries| && entries[i].key == other;
      assert after[i] == entries[i];
    } else {
      forall i | 0 <= i < |after| ensures after[i].key != other {
      }
    }
  }

  // Nothing is invented and no allowed value is lost: under an allowed key the
  // result holds the sanitized last value, under any other key nothing.
  lemma {:induction false} SanitizedLookup(value: Value, n: nat, key: string)
    requires value.Mapping? && n <= |value.entries|
    ensures var source := Get(value.entries[..n], key);
            Get(SanitizeEntries(value, n), key) ==
            if key in SAFE_KEYS && source.Some? then Some(SanitizeJson(source.value)) else None
    decreases n
  {
    if n > 0 {
      SanitizedLookup(value, n - 1, key);
      var entry := value.entries[n - 1];
      var before := SanitizeEntries(value, n - 1);
      assert value.entries[..n][..n - 1] == value.entries[..n - 1];
      if entry.key in SAFE_KEYS {
        SanitizedEntriesAreClean(value, n - 1);
        GetPut(before, entry.key, SanitizeJson(entry.value), key);
      }
    }
  }

  lemma KeptExactly(value: Value, key: string)
    requires value.Mapping?
    ensures HasKey(SanitizeEntries(value, |value.entries|), key) <==> key in SAFE_KEYS && HasKey(value.entries, key)
  {
    var n := |value.entries|;
    assert value.entries[..n] == value.entries;
    SanitizedLookup(value, n, key);
    GetIsLast(value.entries, key);
    GetIsLast(SanitizeEntries(value, n), key);
  }

  // Timestamps and foreign objects become their text, plain values stay, lists
  // keep their length and order, and an object stays an object.
  lemma SanitizedShape(value: Value)
    ensures var after := SanitizeJson(value);
            && (value.Null? || value.Bool? || value.Int? || value.Float? || value.Str? ==> after == value)
            && (value.DateTime? ==> after == Str(value.iso))
            && (value.Other? ==> after == Str(value.rendering))
            && (value.Sequence? ==>
                  && after.Sequence? && |after.items| == |value.items|
                  && forall i :: 0 <= i < |value.items| ==> after.items[i] == SanitizeJson(value.items[i]))
            && (value.Mapping? ==>
                  && after.Mapping? && UniqueKeys(after.entries)
                  && forall key :: key in SAFE_KEYS ==>
                       (HasKey(after.entries, key) <==> HasKey(value.entries, key)))
  {
    if value.Mapping? {
      SanitizedIsClean(value);
      forall key | key in SAFE_KEYS ensures HasKey(SanitizeJson(value).entries, key) <==> HasKey(value.entries, key) {
        KeptExactly(value, key);
      }
    }
  }

  /* Task results */

  // A result is an object or nothing.
  function SanitizeResult(value: Value): Option<Value> {
    match value
    case Null => None
    case Mapping(entries) =>
      var kept := SanitizeEntries(value, |entries|);
      if kept == [] then None else Some(Mapping(kept))
    case _ => Some(Mapping([Entry("status", SanitizeJson(value))]))
  }

  function Stored(result: Option<Value>): Value {
    if result.Some? then result.value else Null
  }

  lemma SanitizedResultIsClean(value: Value)
    ensures var result := SanitizeResult(value);
            result.Some? ==> result.value.Mapping? && result.value.entries != [] && Clean(result.value)
  {
    SanitizedIsClean(value);
  }

  predicate Allowed(key: string) {
    || key == "application_id" || key == "applications" || key == "batch_size" || key == "created" || key == "deleted"
    || key == "flavor_changes" || key == "machine_id" || key == "machines" || key == "provider_id" || key == "providers"
    || key == "provisioners" || key == "skipped" || key == "status" || key == "synced" || key == "total"
    || key == "updated"
  }

  // The result of a task that returned an object keeps every allowed entry and
  // nothing else, and is nothing exactly if there is none. Any other value goes
  // under "status", and no value is no result.
  lemma ResultMeaning(value: Value, key: string)
    ensures var result := SanitizeResult(value);
            && (value.Null? ==> result.None?)
            && (value.Mapping? ==>
                  var given := Get(value.entries, key);
                  && (result.None? <==> forall i :: 0 <= i < |value.entries| ==> !Allowed(value.entries[i].key))
                  && (result.Some? ==>
                        && result.value.Mapping?
                        && Get(result.value.entries, key) ==
                           if Allowed(key) && given.Some? then Some(SanitizeJson(given.value)) else None))
            && (!value.Null? && !value.Mapping? ==>
                  result.Some? && result.value.Mapping? && result.value.entries == [Entry("status", SanitizeJson(value))])
  {
    assert forall k :: k in SAFE_KEYS <==> Allowed(k);
    if value.Mapping? {
      var n := |value.entries|;
      assert value.entries[..n] == value.entries;
      SanitizedLookup(value, n, key);
      SanitizedEntriesAreClean(value, n);
      var kept := SanitizeEntries(value, n);
      forall i | 0 <= i < n && Allowed(value.entries[i].key) ensures kept != [] {
        KeptExactly(value, value.entries[i].key);
      }
      if kept != [] {
        KeptExactly(value, kept[0].key);
      }
    }
  }

  // The result is sanitized when it is stored and again when it is read; the
  // second pass shows what the first one stored.
  lemma ReadShowsWhatWasStored(value: Value)
    ensures SanitizeResult(Stored(SanitizeResult(value))) == SanitizeResult(value)
  {
    SanitizedResultIsClean(value);
    var result := SanitizeResult(value);
    if result.Some? {
      CleanIsFixed(result.value);
    }
  }
}
