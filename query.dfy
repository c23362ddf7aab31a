/**
 * The query-string parser inside `Router::match`: `&amp;` is read as `&`,
 * the string is split at `&`, each item at `=`; an item with an empty key
 * is skipped, an item without `=` is a flag (`true`), a numeric value
 * becomes an integer and any other value stays a string. Items are
 * assigned in order, so a repeated key keeps its last value.
 */
module Query {
  import opened Values
  import opened Strings
  import opened Casts
  import opened Seqs

  const Ampersand := "&"
  const Entity := "&amp;"

  /** The items of a query string. */
  function QueryItems(query: string): (items: seq<string>)
    ensures |items| >= 1
  {
    Explode(StrReplace(query, Entity, Ampersand), Ampersand)
  }

  /** The value of an item's text after its first `=`. */
  function ItemValue(rules: CastRules, text: string): (v: Value)
    ensures v.Int? || v == Str(text)
    ensures IntShaped(text) && PhpIntMin <= ParseInt(text) <= PhpIntMax ==> v == Int(ParseInt(text))
    ensures !HasDigit(text) ==> v == Str(text)
  {
    if IsNumeric(rules, text) then Int(ToInt(rules, text)) else Str(text)
  }

  /** What one item assigns: its key and value, or nothing when the key is empty. */
  function ItemEntry(rules: CastRules, item: string): Option<(string, Value)> {
    var parts := Explode(item, "=");
    if |parts[0]| == 0 then None
    else Some((parts[0], if |parts| > 1 then ItemValue(rules, parts[1]) else Bool(true)))
  }

  /** The assignments of a list of items, in order. */
  function ItemEntries(rules: CastRules, items: seq<string>): (es: seq<(string, Value)>)
    ensures |es| <= |items|
  {
    if items == [] then []
    else
      var init := ItemEntries(rules, items[..|items| - 1]);
      match ItemEntry(rules, items[|items| - 1])
      case None => init
      case Some(e) => init + [e]
  }

  /** The query array built from a query string. */
  function QueryMap(rules: CastRules, query: string): Dict<Value> {
    PutAll([], ItemEntries(rules, QueryItems(query)))
  }

  /** The loop of `Router::match` that fills `params['query']`. */
  method ParseQuery(rules: CastRules, query: string) returns (m: Dict<Value>)
    ensures m == QueryMap(rules, query)
  {
    m := [];
    var items := Explode(StrReplace(query, "&amp;", "&"), "&");
    for i := 0 to |items|
      invariant m == PutAll([], ItemEntries(rules, items[..i]))
    {
      ItemEntriesStep(rules, items, i);
      var parts := Explode(items[i], "=");
      var key := parts[0];
      if |key| == 0 {
        continue;
      }
      var value := Bool(true);
      if |parts| > 1 {
        value := if IsNumeric(rules, parts[1]) then Int(ToInt(rules, parts[1])) else Str(parts[1]);
      }
      m := Put(m, key, value);
    }
    assert items[..|items|] == items;
  }

  /** One more item assigns its entry, if it has one, after the earlier ones. */
  lemma ItemEntriesStep(rules: CastRules, items: seq<string>, i: nat)
    requires i < |items|
    ensures PutAll([], ItemEntries(rules, items[..i + 1])) ==
      match ItemEntry(rules, items[i])
      case None => PutAll([], ItemEntries(rules, items[..i]))
      case Some(e) => Put(PutAll([], ItemEntries(rules, items[..i])), e.0, e.1)
  {
    var pre := items[..i + 1];
    assert pre[..i] == items[..i] && pre[i] == items[i];
    var init := ItemEntries(rules, items[..i]);
    match ItemEntry(rules, items[i])
    case None =>
    case Some(e) =>
      InitAppend(init, [e]);
  }

  // ---------------------------------------------------------------------
  // Items

  /** An item without `=` is a flag set to `true`. */
  lemma FlagItem(rules: CastRules, key: string)
    requires key != [] && '=' !in key
    ensures ItemEntry(rules, key) == Some((key, Bool(true)))
  {
    ExplodeWhole(key, "=");
  }

  /** Only the text between the first and the second `=` is the value. */
  lemma ValueItem(rules: CastRules, key: string, value: string, rest: string)
    requires key != [] && '=' !in key && '=' !in value
    ensures ItemEntry(rules, key + "=" + value) == Some((key, ItemValue(rules, value)))
    ensures ItemEntry(rules, key + "=" + value + "=" + rest) == Some((key, ItemValue(rules, value)))
  {
    ExplodeAt(key, value, "=");
    ExplodeWhole(value, "=");
    assert [value] == [value] + [];
    ItemEntryOf(rules, key + "=" + value, key, value, []);
    var u := value + "=" + rest;
    ExplodeAt(key, u, "=");
    ExplodeAt(value, rest, "=");
    assert key + "=" + value + "=" + rest == key + "=" + u;
    ItemEntryOf(rules, key + "=" + u, key, value, Explode(rest, "="));
  }

  lemma ItemEntryOf(rules: CastRules, item: string, key: string, value: string, tail: seq<string>)
    requires key != [] && Explode(item, "=") == [key] + ([value] + tail)
    ensures ItemEntry(rules, item) == Some((key, ItemValue(rules, value)))
  {
    var parts := [key] + ([value] + tail);
    assert parts[0] == key && parts[1] == value && |parts| > 1;
  }

  /** `k=` gives the empty string, not a number. */
  lemma EmptyValueItem(rules: CastRules, key: string)
    requires key != [] && '=' !in key
    ensures ItemEntry(rules, key + "=") == Some((key, Str("")))
  {
    ValueItem(rules, key, "", "");
    assert key + "=" + "" == key + "=";
  }

  /** An item whose key is empty assigns nothing. */
  lemma EmptyKeyItem(rules: CastRules, rest: string)
    ensures ItemEntry(rules, "=" + rest) == None
    ensures ItemEntry(rules, "") == None
  {
    ExplodeAt("", rest, "=");
    assert "" + "=" + rest == "=" + rest;
  }

  lemma {:induction false} ItemEntriesKeys(rules: CastRules, items: seq<string>)
    ensures forall i :: 0 <= i < |ItemEntries(rules, items)| ==> ItemEntries(rules, items)[i].0 != ""
  {
    if items != [] {
      ItemEntriesKeys(rules, items[..|items| - 1]);
    }
  }

  lemma {:induction false} ItemEntriesAppend(rules: CastRules, items: seq<string>, more: seq<string>)
    ensures ItemEntries(rules, items + more) == ItemEntries(rules, items) + ItemEntries(rules, more)
    decreases |more|
  {
    if more == [] {
      assert items + more == items;
    } else {
      InitAppend(items, more);
      ItemEntriesAppend(rules, items, more[..|more| - 1]);
      match ItemEntry(rules, more[|more| - 1])
      case None =>
      case Some(e) =>
        SnocAssoc(ItemEntries(rules, items), ItemEntries(rules, more[..|more| - 1]), e);
    }
  }

  // ---------------------------------------------------------------------
  // The query array

  /** The empty query string gives the empty array. */
  lemma EmptyQuery(rules: CastRules)
    ensures QueryMap(rules, "") == []
  {
    assert QueryItems("") == [""];
    EmptyKeyItem(rules, "");
    assert [""][..0] == [];
  }

  /** No key of the query array is empty, and none appears twice. */
  lemma QueryMapKeys(rules: CastRules, query: string)
    ensures "" !in Keys(QueryMap(rules, query))
    ensures Unique(QueryMap(rules, query))
  {
    var es := ItemEntries(rules, QueryItems(query));
    var empty: Dict<Value> := [];
    PutAllKeys(empty, es);
    assert Keys(empty) + Keys(es) == Keys(es);
    DedupElements(Keys(es));
    ItemEntriesKeys(rules, QueryItems(query));
    PutAllUnique(empty, es);
  }

  /** A key assigned by the last item takes that item's value. */
  lemma QueryMapGet(rules: CastRules, items: seq<string>, item: string, k: string, v: Value)
    requires ItemEntry(rules, item) == Some((k, v))
    ensures Get(PutAll([], ItemEntries(rules, items + [item])), k) == Some(v)
  {
    var init := items + [item];
    assert init[..|init| - 1] == items;
    var es := ItemEntries(rules, items);
    var empty: Dict<Value> := [];
    PutGet(PutAll(empty, es), k, v, k);
  }

  /** Items that never assign `k` leave its value alone. */
  lemma QueryMapOther(rules: CastRules, items: seq<string>, more: seq<string>, k: string)
    requires forall j :: 0 <= j < |more| ==> ItemEntry(rules, more[j]).None? || ItemEntry(rules, more[j]).value.0 != k
    ensures Get(PutAll([], ItemEntries(rules, items + more)), k) == Get(PutAll([], ItemEntries(rules, items)), k)
  {
    ItemEntriesAppend(rules, items, more);
    var es := ItemEntries(rules, items);
    var ms := ItemEntries(rules, more);
    var empty: Dict<Value> := [];
    MoreKeys(rules, more, k);
    PutAllAppend(empty, es, ms);
    PutAllGet(PutAll(empty, es), ms, k);
  }

  lemma {:induction false} MoreKeys(rules: CastRules, more: seq<string>, k: string)
    requires forall j :: 0 <= j < |more| ==> ItemEntry(rules, more[j]).None? || ItemEntry(rules, more[j]).value.0 != k
    ensures k !in Keys(ItemEntries(rules, more))
  {
    if more != [] {
      MoreKeys(rules, more[..|more| - 1], k);
    }
  }

  /** `&amp;` separates items exactly as `&` does: no occurrence of `&amp;` can straddle its start. */
  lemma {:induction false} EntityReplaced(a: string, b: string)
    ensures StrReplace(a + Entity + b, Entity, Ampersand) == StrReplace(a, Entity, Ampersand) + Ampersand + StrReplace(b, Entity, Ampersand)
    decreases |a|
  {
    var s := a + Entity + b;
    var y := Ampersand + StrReplace(b, Entity, Ampersand);
    if |a| == 0 {
      assert s == Entity + b;
      EntityAtHead(b);
    } else if StartsWith(a, Entity) {
      EntityReplaced(a[|Entity|..], b);
      EntityLeads(a, b);
      ReplaceEntityStep(s, a, y);
    } else {
      EntityReplaced(a[1..], b);
      Assoc(StrReplace(a[1..], Entity, Ampersand), Ampersand, StrReplace(b, Entity, Ampersand));
      PlainLeads(a, b, y);
    }
    Assoc(StrReplace(a, Entity, Ampersand), Ampersand, StrReplace(b, Entity, Ampersand));
  }

  /** A character that does not start `&amp;` is copied, and the replacement goes on after it. */
  lemma PlainLeads(a: string, b: string, y: string)
    requires |a| > 0 && !StartsWith(a, Entity)
    requires StrReplace(a[1..] + Entity + b, Entity, Ampersand) == StrReplace(a[1..], Entity, Ampersand) + y
    ensures StrReplace(a + Entity + b, Entity, Ampersand) == StrReplace(a, Entity, Ampersand) + y
  {
    EntityNotAt(a, b);
    HeadTailAppend(a, Entity);
    HeadTailAppend(a + Entity, b);
    ReplaceStep(a + Entity + b, a, y);
  }

  lemma EntityAtHead(b: string)
    ensures StrReplace(Entity + b, Entity, Ampersand) == Ampersand + StrReplace(b, Entity, Ampersand)
  {
    var s := Entity + b;
    assert s[..|Entity|] == Entity && s[|Entity|..] == b;
  }

  /**
   * `&amp;` does not start at the head of `a . &amp; . b` when `a` is
   * non-empty and does not start with it: no proper prefix of `&amp;` is
   * also a suffix of it.
   */
  lemma EntityNotAt(a: string, b: string)
    requires |a| > 0 && !StartsWith(a, Entity)
    ensures !StartsWith(a + Entity + b, Entity)
  {
    var s := a + Entity + b;
    if |a| >= 5 {
      assert s[..5] == a[..5];
    } else {
      assert s[4] == Entity[4 - |a|];
      assert s[..5][4] == s[4];
    }
  }

  /** Replacing in two strings with the same head and no occurrence there, after the head. */
  lemma ReplaceStep(s: string, a: string, y: string)
    requires |s| > 0 && |a| > 0 && s[0] == a[0]
    requires !StartsWith(s, Entity) && !StartsWith(a, Entity)
    requires StrReplace(s[1..], Entity, Ampersand) == StrReplace(a[1..], Entity, Ampersand) + y
    ensures StrReplace(s, Entity, Ampersand) == StrReplace(a, Entity, Ampersand) + y
  {
    ConsAssoc(a[0], StrReplace(a[1..], Entity, Ampersand), y);
  }

  /** An `&amp;` that starts `a` also starts `a . &amp; . b`, and the rest follows on. */
  lemma EntityLeads(a: string, b: string)
    requires StartsWith(a, Entity)
    ensures StartsWith(a + Entity + b, Entity)
    ensures (a + Entity + b)[|Entity|..] == a[|Entity|..] + Entity + b
  {
    var s := a + Entity + b;
    assert s[..|Entity|] == a[..|Entity|];
    assert s[|Entity|..] == a[|Entity|..] + Entity + b;
  }

  lemma ReplaceEntityStep(s: string, a: string, y: string)
    requires StartsWith(s, Entity) && StartsWith(a, Entity)
    requires StrReplace(s[|Entity|..], Entity, Ampersand) == StrReplace(a[|Entity|..], Entity, Ampersand) + y
    ensures StrReplace(s, Entity, Ampersand) == StrReplace(a, Entity, Ampersand) + y
  {
    Assoc(Ampersand, StrReplace(a[|Entity|..], Entity, Ampersand), y);
  }

  /** The items around an `&amp;` are the items before it followed by the items after it. */
  lemma PlainQueryItems(a: string, b: string)
    ensures QueryItems(a + Entity + b) == QueryItems(a) + QueryItems(b)
  {
    EntityReplaced(a, b);
    ExplodeJoin(StrReplace(a, Entity, Ampersand), StrReplace(b, Entity, Ampersand), Ampersand);
  }

  /** A query string without `;` holds no `&amp;`: its items are its `&`-separated pieces. */
  lemma UnescapedQueryItems(a: string)
    requires ';' !in a
    ensures QueryItems(a) == Explode(a, Ampersand)
  {
    StrReplaceAbsent(a, Entity, Ampersand);
  }

  /** A query whose last item is `k=v` maps `k` to `v`, whatever came before. */
  lemma LastItemWins(rules: CastRules, before: string, key: string, value: string)
    requires key != [] && '=' !in key && '&' !in key
    requires '=' !in value && '&' !in value
    ensures Get(QueryMap(rules, before + Entity + key + "=" + value), key) == Some(ItemValue(rules, value))
  {
    var item := key + "=" + value;
    InAppend('&', key, "="); InAppend('&', key + "=", value);
    Assoc(before + Entity, key, "=");
    Assoc(before + Entity, key + "=", value);
    PlainQueryItems(before, item);
    StrReplaceNone(item, Entity, Ampersand);
    ExplodeWhole(item, Ampersand);
    ValueItem(rules, key, value, "");
    QueryMapGet(rules, QueryItems(before), item, key, ItemValue(rules, value));
  }
}
