/**
 * Redacting the data of a vault entry: which leaves of a nested map are
 * blanked, and how redactions compose.
 */
module Redaction {
  import opened Wrappers

  /** Entry data: nested maps; everything else, lists included, is a leaf. */
  datatype Value = Text(text: string) | Other(id: int) | Map(fields: map<string, Value>)

  const REDACTED := Text("[REDACTED]")

  /** Classification 0 is the default, public one. */
  datatype Entry = Entry(path: string, data: map<string, Value>, metadata: int, secretMetadata: int,
          classification: int, canary: bool)

  // ---------------------------------------------------------------- patterns

  predicate EndsWith(s: string, suffix: string) { |s| >= |suffix| && s[|s| - |suffix|..] == suffix }

  /** One pattern: the path itself, everything, or everything below a prefix. */
  predicate Hits(pattern: string, field: string) {
    || pattern == field || pattern == "*"
    || (EndsWith(pattern, ".*") && pattern[..|pattern| - 2] + "." <= field)
  }

  predicate Matches(patterns: seq<string>, field: string) {
    exists i :: 0 <= i < |patterns| && Hits(patterns[i], field)
  }

  /** `shouldRedactField`; no agent, or no list, redacts nothing. */
  method ShouldRedactField(redactFields: Option<seq<string>>, field: string) returns (r: bool)
    ensures r <==> redactFields.Some? && Matches(redactFields.value, field)
    ensures r <==> redactFields.Some? && Named(redactFields.value, field)
  {
    if redactFields.Some? { MatchesIffNamed(redactFields.value, field); }
    if redactFields.None? { return false; }
    r := MatchAny(redactFields.value, field);
  }

  /** The pattern loop, which `redactValue` repeats for every leaf. */
  method MatchAny(patterns: seq<string>, field: string) returns (r: bool)
    ensures r <==> Matches(patterns, field)
  {
    for i := 0 to |patterns|
      invariant !exists j :: 0 <= j < i && Hits(patterns[j], field)
    {
      var pattern := patterns[i];
      if pattern == field || pattern == "*" {
        assert Hits(patterns[i], field);
        return true;
      }
      if EndsWith(pattern, ".*") {
        var prefix := pattern[..|pattern| - 2];
        if prefix + "." <= field {
          assert Hits(patterns[i], field);
          return true;
        }
      }
      assert !Hits(patterns[i], field);
    }
    return false;
  }

  // ---------------------------------------------------------------- redacting a value

  function Redacted(field: string, value: Value, patterns: seq<string>): Value
    decreases value
  {
    match value
    case Map(fields) => Map(map k | k in fields :: Redacted(field + "." + k, fields[k], patterns))
    case _ => if Matches(patterns, field) then REDACTED else value
  }

  /** `redactValue`; the keys of a map may come in any order. */
  method RedactValue(field: string, value: Value, patterns: seq<string>) returns (r: Value)
    ensures r == Redacted(field, value, patterns)
    decreases value
  {
    match value {
      case Map(fields) =>
        var result: map<string, Value> := map[];
        var rest := fields.Keys;
        while rest != {}
          invariant rest <= fields.Keys && result.Keys == fields.Keys - rest
          invariant forall k | k in result :: result[k] == Redacted(field + "." + k, fields[k], patterns)
          decreases rest
        {
          var k :| k in rest;
          var v := RedactValue(field + "." + k, fields[k], patterns);
          result := result[k := v];
          rest := rest - {k};
        }
        return Map(result);
      case _ =>
        var hit := MatchAny(patterns, field);
        return if hit then REDACTED else value;
    }
  }

  function RedactedData(data: map<string, Value>, patterns: seq<string>): map<string, Value> {
    map k | k in data :: Redacted(k, data[k], patterns)
  }

  /** `redactEntry` */
  method RedactEntry(entry: Option<Entry>, redactFields: Option<seq<string>>) returns (r: Option<Entry>)
    ensures r == RedactedEntry(entry, redactFields)
    ensures entry.Some? && redactFields.Some? && redactFields.value != [] ==>
              && r.Some? && r.value.data.Keys == entry.value.data.Keys && r.value.metadata == entry.value.metadata
              && r.value.path == "" && r.value.secretMetadata == 0 && r.value.classification == 0 && !r.value.canary
  {
    if entry.None? || redactFields.None? || |redactFields.value| == 0 { return entry; }
    var data: map<string, Value> := map[];
    var rest := entry.value.data.Keys;
    while rest != {}
      invariant rest <= entry.value.data.Keys && data.Keys == entry.value.data.Keys - rest
      invariant forall k | k in data :: data[k] == Redacted(k, entry.value.data[k], redactFields.value)
      decreases rest
    {
      var k :| k in rest;
      var v := RedactValue(k, entry.value.data[k], redactFields.value);
      data := data[k := v];
      rest := rest - {k};
    }
    assert data == RedactedData(entry.value.data, redactFields.value);
    return Some(Entry("", data, entry.value.metadata, 0, 0, false));
  }

  /** The data redacted, the metadata kept, and every other field reset, unless there is nothing to redact by. */
  function RedactedEntry(entry: Option<Entry>, redactFields: Option<seq<string>>): Option<Entry> {
    if entry.Some? && redactFields.Some? && redactFields.value != [] then
      Some(Entry("", RedactedData(entry.value.data, redactFields.value), entry.value.metadata, 0, 0, false))
    else entry
  }

  // ---------------------------------------------------------------- what a reader finds

  /** What lies at a path of keys below a value. */
  function Find(value: Value, path: seq<string>): Option<Value>
    decreases path
  {
    if path == [] then Some(value)
    else if value.Map? && path[0] in value.fields then Find(value.fields[path[0]], path[1..])
    else None
  }

  function Dotted(field: string, path: seq<string>): string
    decreases path
  {
    if path == [] then field else Dotted(field + "." + path[0], path[1..])
  }

  /**
   * Path by path: nothing appears or disappears, maps keep their keys, and a
   * leaf is blanked if and only if some pattern matches its full dotted path.
   */
  lemma {:induction false} FindRedacted(field: string, value: Value, patterns: seq<string>, path: seq<string>)
    ensures var before, after := Find(value, path), Find(Redacted(field, value, patterns), path);
            && (before.None? <==> after.None?)
            && (before.Some? && before.value.Map?
                ==> after.value.Map? && after.value.fields.Keys == before.value.fields.Keys)
            && (before.Some? && !before.value.Map? ==>
                  after.value == if Matches(patterns, Dotted(field, path)) then REDACTED else before.value)
    decreases path
  {
    if path != [] && value.Map? && path[0] in value.fields {
      FindRedacted(field + "." + path[0], value.fields[path[0]], patterns, path[1..]);
    }
  }

  /** The patterns name the path, or everything, or everything below a prefix of it. */
  ghost predicate Named(patterns: seq<string>, name: string) {
    name in patterns || "*" in patterns || exists prefix :: prefix + ".*" in patterns && prefix + "." <= name
  }

  lemma {:induction false} MatchesIffNamed(patterns: seq<string>, name: string)
    ensures Matches(patterns, name) <==> Named(patterns, name)
  {
    if i :| 0 <= i < |patterns| && Hits(patterns[i], name) {
      var pattern := patterns[i];
      if pattern != name && pattern != "*" {
        var prefix := pattern[..|pattern| - 2];
        assert prefix + ".*" == pattern;
      }
    }
    if prefix :| prefix + ".*" in patterns && prefix + "." <= name {
      var i :| 0 <= i < |patterns| && patterns[i] == prefix + ".*";
      assert patterns[i][|patterns[i]| - 2..] == ".*" && patterns[i][..|patterns[i]| - 2] == prefix;
      assert Hits(patterns[i], name);
    }
    if name in patterns || "*" in patterns {
      var i :| 0 <= i < |patterns| && (patterns[i] == name || patterns[i] == "*");
      assert Hits(patterns[i], name);
    }
  }

  /** Of an entry's data, exactly the leaves named by the patterns are blanked, and nothing else changes. */
  lemma {:induction false} EntryLeafBlankedIff(e: Entry, patterns: seq<string>, key: string, path: seq<string>)
    requires key in e.data && Find(e.data[key], path).Some? && !Find(e.data[key], path).value.Map?
    ensures var after := RedactedEntry(Some(e), Some(patterns)).value;
            && key in after.data
            && Find(after.data[key], path)
               == (if Named(patterns, Dotted(key, path)) then Some(Text("[REDACTED]")) else Find(e.data[key], path))
  {
    hide Named, Matches;
    FindRedacted(key, e.data[key], patterns, path);
    MatchesIffNamed(patterns, Dotted(key, path));
    if patterns == [] { NothingNamed(Dotted(key, path)); }
  }

  lemma {:induction false} NothingNamed(name: string)
    ensures !Named([], name)
  {
  }

  lemma {:induction false} MatchesConcat(a: seq<string>, b: seq<string>, field: string)
    ensures Matches(a + b, field) <==> Matches(a, field) || Matches(b, field)
  {
    if Matches(a, field) {
      var i :| 0 <= i < |a| && Hits(a[i], field);
      assert Hits((a + b)[i], field);
    }
    if Matches(b, field) {
      var i :| 0 <= i < |b| && Hits(b[i], field);
      assert Hits((a + b)[|a| + i], field);
    }
    if Matches(a + b, field) {
      var i :| 0 <= i < |a + b| && Hits((a + b)[i], field);
      if i < |a| { assert Hits(a[i], field); } else { assert Hits(b[i - |a|], field); }
    }
  }

  /** Redacting by one list and then another is redacting by both at once. */
  lemma {:induction false} RedactTwice(field: string, value: Value, a: seq<string>, b: seq<string>)
    ensures Redacted(field, Redacted(field, value, a), b) == Redacted(field, value, a + b)
    decreases value
  {
    hide Matches;
    match value
    case Map(fields) =>
      forall k | k in fields
        ensures Redacted(field + "." + k, Redacted(field + "." + k, fields[k], a), b)
                == Redacted(field + "." + k, fields[k], a + b)
      {
        RedactTwice(field + "." + k, fields[k], a, b);
      }
    case _ => MatchesConcat(a, b, field);
  }

  lemma {:induction false} RedactAgain(field: string, value: Value, a: seq<string>)
    ensures Redacted(field, Redacted(field, value, a), a) == Redacted(field, value, a)
    decreases value
  {
    hide Matches;
    match value
    case Map(fields) =>
      forall k | k in fields
        ensures Redacted(field + "." + k, Redacted(field + "." + k, fields[k], a), a)
                == Redacted(field + "." + k, fields[k], a)
      {
        RedactAgain(field + "." + k, fields[k], a);
      }
    case _ =>
  }

  lemma {:induction false} DataRedactionsCompose(data: map<string, Value>, a: seq<string>, b: seq<string>)
    ensures RedactedData(RedactedData(data, a), b) == RedactedData(data, a + b)
    ensures RedactedData(RedactedData(data, a), a) == RedactedData(data, a)
  {
    forall k | k in data
      ensures Redacted(k, Redacted(k, data[k], a), b) == Redacted(k, data[k], a + b)
      ensures Redacted(k, Redacted(k, data[k], a), a) == Redacted(k, data[k], a)
    {
      RedactTwice(k, data[k], a, b);
      RedactAgain(k, data[k], a);
    }
  }

  /** Redacting an entry is idempotent, and two redactions in a row are one by the joined list. */
  lemma {:induction false} EntryRedactionsCompose(e: Entry, a: seq<string>, b: seq<string>)
    ensures var once := RedactedEntry(Some(e), Some(a));
            && RedactedEntry(once, Some(b)) == RedactedEntry(Some(e), Some(a + b))
            && RedactedEntry(once, Some(a)) == once
  {
    hide RedactedData;
    DataRedactionsCompose(e.data, a, b);
    assert a == [] ==> a + b == b;
    assert b == [] ==> a + b == a;
  }

  // ---------------------------------------------------------------- what a pattern reaches

  predicate Plain(pattern: string) { pattern != "*" && !EndsWith(pattern, ".*") }

  lemma {:induction false} DottedGrows(field: string, path: seq<string>)
    ensures field <= Dotted(field, path)
    ensures path != [] ==> |Dotted(field, path)| > |field| && field + "." <= Dotted(field, path)
    decreases path
  {
    if path != [] {
      DottedGrows(field + "." + path[0], path[1..]);
      assert field + "." <= field + "." + path[0];
    }
  }

  /** A plain pattern naming a map reaches nothing inside it: the map comes out unchanged. */
  lemma {:induction false} PlainPatternSkipsMaps(field: string, fields: map<string, Value>, patterns: seq<string>)
    requires forall p | p in patterns :: Plain(p) && |p| <= |field|
    ensures Redacted(field, Map(fields), patterns) == Map(fields)
  {
    forall k | k in fields ensures Redacted(field + "." + k, fields[k], patterns) == fields[k] {
      NothingPlainBelow(field + "." + k, fields[k], patterns);
    }
  }

  lemma {:induction false} NothingPlainBelow(field: string, value: Value, patterns: seq<string>)
    requires forall p | p in patterns :: Plain(p) && |p| < |field|
    ensures Redacted(field, value, patterns) == value
    decreases value
  {
    match value
    case Map(fields) =>
      forall k | k in fields ensures Redacted(field + "." + k, fields[k], patterns) == fields[k] {
        NothingPlainBelow(field + "." + k, fields[k], patterns);
      }
    case _ =>
      forall i | 0 <= i < |patterns| ensures !Hits(patterns[i], field) { assert patterns[i] in patterns; }
  }

  /** A wildcard pattern for a map blanks every leaf inside it. */
  lemma {:induction false} WildcardBlanksBelow(field: string, fields: map<string, Value>, path: seq<string>)
    requires path != [] && Find(Map(fields), path).Some? && !Find(Map(fields), path).value.Map?
    ensures Find(Redacted(field, Map(fields), [field + ".*"]), path) == Some(REDACTED)
  {
    var pattern := field + ".*";
    assert pattern[..|pattern| - 2] == field && pattern[|pattern| - 2..] == ".*";
    FindRedacted(field, Map(fields), [pattern], path);
    DottedGrows(field, path);
    assert Hits([pattern][0], Dotted(field, path));
  }

  const SECRET := 3

  /** The test `get_entry_value` makes on the entry it is about to return. */
  predicate ShouldSeal(e: Entry, autoUnseal: Option<bool>) { e.classification >= SECRET && autoUnseal != Some(true) }

  /** Sealed are the entries classified secret or higher, unless the agent unseals on its own. */
  lemma {:induction false} SealedFromSecretOn(e: Entry, autoUnseal: Option<bool>)
    ensures ShouldSeal(e, autoUnseal) <==> e.classification > 2 && (autoUnseal.Some? ==> !autoUnseal.value)
  {
  }

  /**
   * Redaction resets the classification, so an entry is still sealed afterwards only
   * if there was nothing to redact by.
   */
  lemma {:induction false} SealedIff(e: Entry, redactFields: Option<seq<string>>, autoUnseal: Option<bool>)
    ensures ShouldSeal(RedactedEntry(Some(e), redactFields).value, autoUnseal)
       <==> ShouldSeal(e, autoUnseal) && (redactFields.None? || redactFields.value == [])
  {
  }
}
