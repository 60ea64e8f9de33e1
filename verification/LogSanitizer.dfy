/** app/core/logging.py: `sanitize_value` and `sanitize_dict`. */
module LogSanitizer {
  import opened Wrappers
  import opened Text

  /** A logged value; `Scalar` is anything that is no string, dict or list. */
  datatype Value =
    | Str(s: string)
    | Scalar(n: int)
    | Dict(entries: seq<Entry>)
    | List(items: seq<Value>)

  datatype Entry = Entry(key: string, value: Value)

  const SENSITIVE_FIELDS: seq<string> := [
    "password", "password_hash", "token", "access_token", "refresh_token", "secret", "api_key",
    "authorization", "cookie", "session_id", "credit_card", "card_number", "cvv", "ssn",
    "social_security", "private_key", "encryption_key"]

  const REDACTED := "[REDACTED]"

  predicate Sensitive(key: string) {
    exists i :: 0 <= i < |SENSITIVE_FIELDS| && Occurs(SENSITIVE_FIELDS[i], Lower(key))
  }

  /** A string that keeps its first four characters. */
  predicate IsLong(v: Value) {
    v.Str? && |v.s| > 8
  }

  function Redact(v: Value): Value {
    if IsLong(v) then Str(v.s[..4] + "..." + REDACTED) else Str(REDACTED)
  }

  function SanitizeValue(key: string, v: Value): Value {
    if Sensitive(key) then Redact(v) else v
  }

  function SanitizeDict(data: Value): Value
    decreases data, 1
  {
    match data
    case Dict(entries) => Dict(SanitizeEntries(entries))
    case _ => data
  }

  function SanitizeEntries(entries: seq<Entry>): (r: seq<Entry>)
    ensures |r| == |entries|
    decreases entries, 0
  {
    if entries == [] then [] else
      [Entry(entries[0].key, SanitizeField(entries[0].key, entries[0].value))] + SanitizeEntries(entries[1..])
  }

  /** The three branches of the loop body. */
  function SanitizeField(key: string, v: Value): Value
    decreases v, 2
  {
    match v
    case Dict(_) => SanitizeDict(v)
    case List(items) => List(SanitizeItems(items))
    case _ => SanitizeValue(key, v)
  }

  /** Only the dicts of a list are sanitized; its other items are kept. */
  function SanitizeItems(items: seq<Value>): (r: seq<Value>)
    ensures |r| == |items|
    decreases items, 0
  {
    if items == [] then [] else [SanitizeDict(items[0])] + SanitizeItems(items[1..])
  }

  lemma {:induction false} EntryAt(es: seq<Entry>, i: nat)
    requires i < |es|
    ensures SanitizeEntries(es)[i] == Entry(es[i].key, SanitizeField(es[i].key, es[i].value))
  {
    if i > 0 {
      EntryAt(es[1..], i - 1);
    }
  }

  lemma {:induction false} ItemAt(items: seq<Value>, i: nat)
    requires i < |items|
    ensures SanitizeItems(items)[i] == SanitizeDict(items[i])
  {
    if i > 0 {
      ItemAt(items[1..], i - 1);
    }
  }

  /** `sanitize_dict`, filling `result` in a loop. */
  method SanitizeDictLoop(data: Value) returns (result: Value)
    ensures result == SanitizeDict(data)
    decreases data, 1
  {
    if !data.Dict? {
      return data;
    }
    var entries: seq<Entry> := [];
    for i := 0 to |data.entries|
      invariant entries == SanitizeEntries(data.entries)[..i]
    {
      var key, value := data.entries[i].key, data.entries[i].value;
      var clean: Value;
      if value.Dict? {
        clean := SanitizeDictLoop(value);
      } else if value.List? {
        clean := SanitizeList(value);
      } else {
        clean := SanitizeValue(key, value);
      }
      EntryAt(data.entries, i);
      entries := entries + [Entry(key, clean)];
    }
    result := Dict(entries);
  }

  /** The list comprehension of `sanitize_dict`. */
  method SanitizeList(data: Value) returns (result: Value)
    requires data.List?
    ensures result == List(SanitizeItems(data.items))
    decreases data, 0
  {
    var items: seq<Value> := [];
    for i := 0 to |data.items|
      invariant items == SanitizeItems(data.items)[..i]
    {
      var item := data.items[i];
      if item.Dict? {
        item := SanitizeDictLoop(item);
      }
      ItemAt(data.items, i);
      items := items + [item];
    }
    result := List(items);
  }

  // ------------------------------------------------------- what logs reveal

  /** All a sensitive leaf gives away. */
  function Hint(v: Value): Option<string> {
    if IsLong(v) then Some(v.s[..4]) else None
  }

  /** Two data that agree on everything but the concealed part of their
      sensitive leaves. */
  predicate Alike(a: Value, b: Value)
    decreases a, 1
  {
    if a.Dict? && b.Dict? then AlikeEntries(a.entries, b.entries) else a == b
  }

  predicate AlikeEntries(a: seq<Entry>, b: seq<Entry>)
    decreases a, 0
  {
    if a == [] || b == [] then a == b
    else a[0].key == b[0].key && AlikeField(a[0].key, a[0].value, b[0].value) && AlikeEntries(a[1..], b[1..])
  }

  predicate AlikeField(key: string, a: Value, b: Value)
    decreases a, 2
  {
    if a.Dict? || b.Dict? then a.Dict? && b.Dict? && Alike(a, b)
    else if a.List? || b.List? then a.List? && b.List? && AlikeItems(a.items, b.items)
    else if Sensitive(key) then Hint(a) == Hint(b)
    else a == b
  }

  predicate AlikeItems(a: seq<Value>, b: seq<Value>)
    decreases a, 0
  {
    if a == [] || b == [] then a == b else Alike(a[0], b[0]) && AlikeItems(a[1..], b[1..])
  }

  lemma RedactHides(a: Value, b: Value)
    ensures Redact(a) == Redact(b) <==> Hint(a) == Hint(b)
  {
    var tail := "..." + REDACTED;
    if IsLong(a) && IsLong(b) {
      var x, y := a.s[..4] + "..." + REDACTED, b.s[..4] + "..." + REDACTED;
      assert x[..4] == a.s[..4] && y[..4] == b.s[..4];
    } else if IsLong(a) || IsLong(b) {
      assert |Redact(a).s| != |Redact(b).s|;
    }
  }

  /** The log of a value tells its shape, its keys, its plain leaves and the
      hints of its sensitive ones, and nothing else: two values log alike if and
      only if they agree on those. */
  lemma {:induction false} LogsAlikeIff(a: Value, b: Value)
    ensures SanitizeDict(a) == SanitizeDict(b) <==> Alike(a, b)
    decreases a, 1
  {
    if a.Dict? && b.Dict? {
      EntriesAlikeIff(a.entries, b.entries);
    }
  }

  lemma {:induction false} EntriesAlikeIff(a: seq<Entry>, b: seq<Entry>)
    ensures SanitizeEntries(a) == SanitizeEntries(b) <==> AlikeEntries(a, b)
    decreases a, 0
  {
    if a != [] && b != [] {
      FieldAlikeIff(a[0].key, a[0].value, b[0].value);
      EntriesAlikeIff(a[1..], b[1..]);
      var x, y := SanitizeEntries(a), SanitizeEntries(b);
      assert x == y <==> x[0] == y[0] && x[1..] == y[1..] by {
        assert x == [x[0]] + x[1..] && y == [y[0]] + y[1..];
      }
      assert x[1..] == SanitizeEntries(a[1..]) && y[1..] == SanitizeEntries(b[1..]);
    }
  }

  lemma {:induction false} FieldAlikeIff(key: string, a: Value, b: Value)
    ensures SanitizeField(key, a) == SanitizeField(key, b) <==> AlikeField(key, a, b)
    decreases a, 2
  {
    if a.Dict? && b.Dict? {
      LogsAlikeIff(a, b);
    } else if a.List? && b.List? {
      ItemsAlikeIff(a.items, b.items);
    } else {
      RedactHides(a, b);
    }
  }

  lemma {:induction false} ItemsAlikeIff(a: seq<Value>, b: seq<Value>)
    ensures SanitizeItems(a) == SanitizeItems(b) <==> AlikeItems(a, b)
    decreases a, 0
  {
    if a != [] && b != [] {
      LogsAlikeIff(a[0], b[0]);
      ItemsAlikeIff(a[1..], b[1..]);
      var x, y := SanitizeItems(a), SanitizeItems(b);
      assert x == y <==> x[0] == y[0] && x[1..] == y[1..] by {
        assert x == [x[0]] + x[1..] && y == [y[0]] + y[1..];
      }
      assert x[1..] == SanitizeItems(a[1..]) && y[1..] == SanitizeItems(b[1..]);
    }
  }

  /** A list of strings is logged in full, even under a sensitive key. */
  lemma PlainListsAreLogged(key: string, items: seq<Value>)
    requires forall i :: 0 <= i < |items| ==> !items[i].Dict?
    ensures SanitizeField(key, List(items)) == List(items)
  {
    forall i | 0 <= i < |items|
      ensures SanitizeItems(items)[i] == items[i]
    {
      ItemAt(items, i);
    }
    assert SanitizeItems(items) == items;
  }

  // ------------------------------------------------------- repeated passes

  /** Every sensitive leaf is a string longer than eight. */
  predicate Settled(v: Value)
    decreases v, 1
  {
    v.Dict? ==> SettledEntries(v.entries)
  }

  predicate SettledEntries(es: seq<Entry>)
    decreases es, 0
  {
    es == [] || (SettledField(es[0].key, es[0].value) && SettledEntries(es[1..]))
  }

  predicate SettledField(key: string, v: Value)
    decreases v, 2
  {
    match v
    case Dict(_) => Settled(v)
    case List(items) => SettledItems(items)
    case _ => Sensitive(key) ==> IsLong(v)
  }

  predicate SettledItems(items: seq<Value>)
    decreases items, 0
  {
    items == [] || (Settled(items[0]) && SettledItems(items[1..]))
  }

  lemma RedactTwice(v: Value)
    ensures IsLong(Redact(v)) && (Redact(Redact(v)) == Redact(v) <==> IsLong(v))
  {
    if IsLong(v) {
      assert (v.s[..4] + "..." + REDACTED)[..4] == v.s[..4];
    } else {
      assert |Redact(Redact(v)).s| == 17;
    }
  }

  /** One pass settles every value, and a second pass changes the log exactly
      when the original had a sensitive leaf that was short or no string. */
  lemma {:induction false} SecondPass(v: Value)
    ensures Settled(SanitizeDict(v))
    ensures SanitizeDict(SanitizeDict(v)) == SanitizeDict(v) <==> Settled(v)
    decreases v, 1
  {
    if v.Dict? {
      SecondPassEntries(v.entries);
    }
  }

  lemma {:induction false} SecondPassEntries(es: seq<Entry>)
    ensures SettledEntries(SanitizeEntries(es))
    ensures SanitizeEntries(SanitizeEntries(es)) == SanitizeEntries(es) <==> SettledEntries(es)
    decreases es, 0
  {
    if es != [] {
      SecondPassField(es[0].key, es[0].value);
      SecondPassEntries(es[1..]);
      var x := SanitizeEntries(es);
      var y := SanitizeEntries(x);
      assert x[1..] == SanitizeEntries(es[1..]) && y[1..] == SanitizeEntries(x[1..]);
      assert x == y <==> x[0] == y[0] && x[1..] == y[1..] by {
        assert x == [x[0]] + x[1..] && y == [y[0]] + y[1..];
      }
    }
  }

  lemma {:induction false} SecondPassField(key: string, v: Value)
    ensures SettledField(key, SanitizeField(key, v))
    ensures SanitizeField(key, SanitizeField(key, v)) == SanitizeField(key, v) <==> SettledField(key, v)
    decreases v, 2
  {
    match v
    case Dict(_) => SecondPass(v);
    case List(items) => SecondPassItems(items);
    case _ => RedactTwice(v);
  }

  lemma {:induction false} SecondPassItems(items: seq<Value>)
    ensures SettledItems(SanitizeItems(items))
    ensures SanitizeItems(SanitizeItems(items)) == SanitizeItems(items) <==> SettledItems(items)
    decreases items, 0
  {
    if items != [] {
      SecondPass(items[0]);
      SecondPassItems(items[1..]);
      var x := SanitizeItems(items);
      var y := SanitizeItems(x);
      assert x[1..] == SanitizeItems(items[1..]) && y[1..] == SanitizeItems(x[1..]);
      assert x == y <==> x[0] == y[0] && x[1..] == y[1..] by {
        assert x == [x[0]] + x[1..] && y == [y[0]] + y[1..];
      }
    }
  }

  /** So a third pass never changes the result of the second. */
  lemma ThirdPassIsIdle(v: Value)
    ensures SanitizeDict(SanitizeDict(SanitizeDict(v))) == SanitizeDict(SanitizeDict(v))
  {
    SecondPass(v);
    SecondPass(SanitizeDict(v));
  }

  // ------------------------------------------------------------------ shape

  /** The same nesting and the same keys in the same order. */
  predicate SameShape(a: Value, b: Value)
    decreases a, 1
  {
    match a
    case Dict(entries) => b.Dict? && SameShapeEntries(entries, b.entries)
    case List(items) => b.List? && SameShapeItems(items, b.items)
    case _ => !b.Dict? && !b.List?
  }

  predicate SameShapeEntries(a: seq<Entry>, b: seq<Entry>)
    decreases a, 0
  {
    if a == [] || b == [] then a == b
    else a[0].key == b[0].key && SameShape(a[0].value, b[0].value) && SameShapeEntries(a[1..], b[1..])
  }

  predicate SameShapeItems(a: seq<Value>, b: seq<Value>)
    decreases a, 0
  {
    if a == [] || b == [] then a == b else SameShape(a[0], b[0]) && SameShapeItems(a[1..], b[1..])
  }

  lemma {:induction false} ShapeReflexive(v: Value)
    ensures SameShape(v, v)
    decreases v, 1
  {
    match v
    case Dict(entries) => ShapeReflexiveEntries(entries);
    case List(items) => ShapeReflexiveItems(items);
    case _ =>
  }

  lemma {:induction false} ShapeReflexiveEntries(es: seq<Entry>)
    ensures SameShapeEntries(es, es)
    decreases es, 0
  {
    if es != [] {
      ShapeReflexive(es[0].value);
      ShapeReflexiveEntries(es[1..]);
    }
  }

  lemma {:induction false} ShapeReflexiveItems(items: seq<Value>)
    ensures SameShapeItems(items, items)
    decreases items, 0
  {
    if items != [] {
      ShapeReflexive(items[0]);
      ShapeReflexiveItems(items[1..]);
    }
  }

  lemma {:induction false} ShapePreserved(v: Value)
    ensures SameShape(v, SanitizeDict(v))
    decreases v, 1
  {
    match v
    case Dict(entries) => ShapePreservedEntries(entries);
    case _ => ShapeReflexive(v);
  }

  lemma {:induction false} ShapePreservedEntries(es: seq<Entry>)
    ensures SameShapeEntries(es, SanitizeEntries(es))
    decreases es, 0
  {
    if es != [] {
      match es[0].value {
        case Dict(_) => ShapePreserved(es[0].value);
        case List(items) => ShapePreservedItems(items);
        case _ =>
      }
      ShapePreservedEntries(es[1..]);
    }
  }

  lemma {:induction false} ShapePreservedItems(items: seq<Value>)
    ensures SameShapeItems(items, SanitizeItems(items))
    decreases items, 0
  {
    if items != [] {
      ShapePreserved(items[0]);
      ShapePreservedItems(items[1..]);
    }
  }


  // --------------------------------------------------------- what is concealed

  /** A key is sensitive exactly if, in any case, it contains one of these words. */
  lemma SensitiveIff(key: string)
    ensures Sensitive(key) <==>
      exists before, word, after ::
        && Lower(key) == before + word + after
        && word in {"password", "password_hash", "token", "access_token", "refresh_token", "secret", "api_key",
                    "authorization", "cookie", "session_id", "credit_card", "card_number", "cvv", "ssn",
                    "social_security", "private_key", "encryption_key"}
  {
    var k := Lower(key);
    if Sensitive(key) {
      var i :| 0 <= i < |SENSITIVE_FIELDS| && Occurs(SENSITIVE_FIELDS[i], k);
      var at: nat :| at <= |k| && OccursAt(SENSITIVE_FIELDS[i], k, at);
      assert k == k[..at] + SENSITIVE_FIELDS[i] + k[at + |SENSITIVE_FIELDS[i]|..];
    }
    forall before, word, after | k == before + word + after && word in SENSITIVE_FIELDS ensures Sensitive(key) {
      var i :| 0 <= i < |SENSITIVE_FIELDS| && SENSITIVE_FIELDS[i] == word;
      assert OccursAt(word, k, |before|);
    }
  }

  /** Under a sensitive key a string longer than eight keeps its first four
      characters, and any other plain value keeps nothing; under another key
      plain values are logged as they are. */
  lemma LoggedLeaf(key: string, v: Value)
    requires v.Str? || v.Scalar?
    ensures !Sensitive(key) ==> SanitizeField(key, v) == v
    ensures Sensitive(key) && v.Str? && |v.s| >= 9 ==> SanitizeField(key, v) == Str(v.s[..4] + "...[REDACTED]")
    ensures Sensitive(key) && (v.Scalar? || |v.s| <= 8) ==> SanitizeField(key, v) == Str("[REDACTED]")
  {
    if v.Str? && |v.s| >= 9 {
      assert v.s[..4] + "..." + REDACTED == v.s[..4] + "...[REDACTED]";
    }
  }
}
