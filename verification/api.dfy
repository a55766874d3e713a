/** The record fetcher and normaliser (`assignment0/api.py`): one GET to the
    lookup API, then a pure mapping of the loosely typed JSON it returns to an
    eight-field record. Every failure the code anticipates is a lookup error
    (`Fail`); the shapes it does not anticipate raise a Python exception that
    nobody catches (`Crash`). */
module Api {
  import opened Outcomes
  import opened Json
  import opened Text
  import opened Http

  const PokeApiBase := "https://pokeapi.co/api/v2"

  const NotObjectMessage := "Expected a JSON object"
  const MissingNameMessage := "Missing 'name' in response"
  const ConnectionMessage := "Connection failed. Check network."
  const InvalidJsonMessage := "Invalid JSON response from API"

  /** The placeholder list entry used when no name could be extracted. */
  const Unknown := JStr("unknown")

  datatype GetRequest = GetRequest(url: string, timeout: int)

  /** A key of the `stats` dict. Python dicts identify `True` with `1` and
      `False` with `0`, so a boolean name lands on the integer key. */
  datatype StatKey = KeyStr(s: string) | KeyInt(i: int)

  /** The normalised record: exactly the eight keys the normaliser returns. */
  datatype Pokemon = Pokemon(
    id: Value,
    name: Value,
    height: Value,
    weight: Value,
    baseExperience: Value,
    types: seq<Value>,
    abilities: seq<Value>,
    stats: map<StatKey, Value>)

  // ---- Fetch ----

  const LookupPrefix := PokeApiBase + "/pokemon/"

  /** The lookup URL; the identifier is the text after the fixed prefix. */
  function LookupUrl(ident: string): (url: string)
    ensures LookupPrefix <= url
    ensures url[|LookupPrefix|..] == ident
  {
    LookupPrefix + ident
  }

  const TimeoutPrefix := "Request timed out after "

  /** The error for a timed-out GET: it says "timed out" and carries the
      timeout, which reads back from the text between the prefix and "s". */
  function TimeoutMessage(timeout: int): (m: string)
    ensures Contains(m, "timed out")
    ensures |TimeoutPrefix| < |m| && ParseInt(m[|TimeoutPrefix|..|m| - 1]) == Some(timeout)
  {
    var m := TimeoutPrefix + IntText(timeout) + "s";
    assert m[8..17] == "timed out";
    assert OccursAt(m, "timed out", 8);
    assert m[|TimeoutPrefix|..|m| - 1] == IntText(timeout);
    IntTextRoundTrip(timeout);
    m
  }

  const HttpPrefix := "HTTP error "

  /** The error for a non-2xx status: it starts "HTTP error", then the
      status as `f"{status}"` renders it, then the library's detail. */
  function HttpMessage(status: Option<int>, detail: string): (m: string)
    ensures HttpPrefix <= m
    ensures HttpPrefix + StatusText(status) + ": " <= m
    ensures m[|HttpPrefix + StatusText(status) + ": "|..] == detail
  {
    HttpPrefix + StatusText(status) + ": " + detail
  }

  /** `fetch_pokemon`: a single GET, its failures mapped to lookup errors,
      the decoded body handed back as it is. */
  function FetchPokemon(ident: string, timeout: int, get: GetRequest -> Transport): (f: Traced<Value, GetRequest>)
    ensures f.sent == [GetRequest(LookupUrl(ident), timeout)]
    ensures f.result.Crash? <==> get(f.sent[0]).Raised?
    ensures f.result.Ok? <==> get(f.sent[0]).Decoded?
    ensures f.result.Ok? ==> f.result.value == get(f.sent[0]).json
    ensures get(f.sent[0]).TimedOut? ==> f.result == Fail(TimeoutMessage(timeout))
    ensures get(f.sent[0]).ConnectionFailed? ==> f.result == Fail(ConnectionMessage)
    ensures get(f.sent[0]).HttpFailure? ==>
      f.result == Fail(HttpMessage(get(f.sent[0]).status, get(f.sent[0]).detail))
    ensures get(f.sent[0]).NotJson? ==> f.result == Fail(InvalidJsonMessage)
  {
    var request := GetRequest(LookupUrl(ident), timeout);
    var result :=
      match get(request)
      case TimedOut => Fail(TimeoutMessage(timeout))
      case ConnectionFailed => Fail(ConnectionMessage)
      case HttpFailure(status, detail, _) => Fail(HttpMessage(status, detail))
      case NotJson => Fail(InvalidJsonMessage)
      case Decoded(json) => Ok(json)
      case Raised => Crash;
    Traced(result, [request])
  }

  // ---- Iterating a list field ----

  /** `for x in v`, where the loop body starts with `x.get(...)`. A list
      yields its items; an empty string or object yields nothing; a non-empty
      string or object yields strings, on which `.get` raises; `None`, a
      boolean or an integer cannot be iterated at all. */
  function Entries(v: Value): (r: Outcome<seq<Value>>)
    ensures !r.Fail?
    ensures v.JArr? ==> r == Ok(v.items)
  {
    match v
    case JArr(items) => Ok(items)
    case JStr(s) => if s == "" then Ok([]) else Crash
    case JObj(fields) => if |fields| == 0 then Ok([]) else Crash
    case _ => Crash
  }

  /** The entries a list field holds when iterating it does not raise. */
  function ListItems(v: Value): seq<Value> {
    if v.JArr? then v.items else []
  }

  /** Iterating `v` raises, or one of its entries is not an object and so
      has no `.get`. */
  ghost predicate ListCrashes(v: Value) {
    match v
    case JArr(items) => exists k :: 0 <= k < |items| && !items[k].JObj?
    case JStr(s) => |s| > 0
    case JObj(fields) => |fields| > 0
    case _ => true
  }

  // ---- Types and abilities ----

  /** The entry wraps an object under `wrapper` whose `name` is truthy. */
  predicate Named(e: Value, wrapper: string) {
    && e.JObj?
    && Get(e.fields, wrapper).JObj?
    && Truthy(Get(Get(e.fields, wrapper).fields, "name"))
  }

  function NameOf(e: Value, wrapper: string): Value
    requires Named(e, wrapper)
  {
    Get(Get(e.fields, wrapper).fields, "name")
  }

  /** The loop that appends `entry[wrapper]["name"]` for every entry passing
      the `isinstance(..., dict) and ....get("name")` test. */
  function NamesFrom(entries: seq<Value>, wrapper: string): (r: Outcome<seq<Value>>)
    ensures !r.Fail?
    ensures r.Crash? <==> exists k :: 0 <= k < |entries| && !entries[k].JObj?
    ensures r.Ok? ==> |r.value| <= |entries|
    ensures r.Ok? ==> forall k :: 0 <= k < |r.value| ==> Truthy(r.value[k])
  {
    if entries == [] then Ok([])
    else
      var init := entries[..|entries| - 1];
      var last := entries[|entries| - 1];
      var names :- NamesFrom(init, wrapper);
      if !last.JObj? then Crash
      else if Named(last, wrapper) then Ok(names + [NameOf(last, wrapper)])
      else Ok(names)
  }

  /** One more entry: its name, if it has one, goes at the end. */
  lemma NamesFromSnoc(init: seq<Value>, last: Value, wrapper: string)
    requires NamesFrom(init, wrapper).Ok? && last.JObj?
    ensures NamesFrom(init + [last], wrapper) ==
      Ok(NamesFrom(init, wrapper).value + if Named(last, wrapper) then [NameOf(last, wrapper)] else [])
  {
    var entries := init + [last];
    assert entries[..|entries| - 1] == init;
    assert entries[|entries| - 1] == last;
    var names := NamesFrom(init, wrapper).value;
    if Named(last, wrapper) {
      assert NamesFrom(entries, wrapper) == Ok(names + [NameOf(last, wrapper)]);
    } else {
      assert NamesFrom(entries, wrapper) == Ok(names);
      assert names + [] == names;
    }
  }

  /** `names` lists the names of exactly the named entries, in entry order:
      `idx` gives, for each name, the position of the entry it came from. */
  ghost predicate Selects(entries: seq<Value>, wrapper: string, idx: seq<int>, names: seq<Value>) {
    && |idx| == |names|
    && (forall k :: 0 <= k < |idx| ==>
          0 <= idx[k] < |entries| && Named(entries[idx[k]], wrapper)
          && names[k] == NameOf(entries[idx[k]], wrapper))
    && (forall k, l :: 0 <= k < l < |idx| ==> idx[k] < idx[l])
    && (forall i :: 0 <= i < |entries| && Named(entries[i], wrapper) ==> i in idx)
  }

  /** The positions of the named entries, in increasing order. */
  function SelectedIndices(entries: seq<Value>, wrapper: string): seq<int> {
    if entries == [] then []
    else
      var n := |entries| - 1;
      SelectedIndices(entries[..n], wrapper) + if Named(entries[n], wrapper) then [n] else []
  }

  /** With no named entry, no position is selected. */
  lemma {:induction false} NoneSelected(entries: seq<Value>, wrapper: string)
    requires forall i :: 0 <= i < |entries| ==> !Named(entries[i], wrapper)
    ensures SelectedIndices(entries, wrapper) == []
  {
    if entries != [] {
      var n := |entries| - 1;
      assert forall i :: 0 <= i < n ==> entries[..n][i] == entries[i];
      NoneSelected(entries[..n], wrapper);
    }
  }

  /** One more entry keeps the selection: a named entry adds its position
      and its name at the end, any other entry adds nothing. */
  lemma SelectsSnoc(init: seq<Value>, last: Value, wrapper: string, prev: seq<int>, names: seq<Value>)
    requires Selects(init, wrapper, prev, names)
    ensures Selects(init + [last], wrapper,
                    prev + if Named(last, wrapper) then [|init|] else [],
                    names + if Named(last, wrapper) then [NameOf(last, wrapper)] else [])
  {
    var entries := init + [last];
    var n := |init|;
    assert forall i :: 0 <= i < n ==> entries[i] == init[i];
    if Named(last, wrapper) {
      var idx := prev + [n];
      forall i | 0 <= i < |entries| && Named(entries[i], wrapper)
        ensures i in idx
      {
        if i < n {
          assert i in prev;
        } else {
          assert idx[|prev|] == i;
        }
      }
    } else {
      assert prev + [] == prev && names + [] == names;
    }
  }

  /** The extracted names are those of the named entries, in entry order,
      each coming from the position `SelectedIndices` gives. */
  lemma {:induction false} NamesFromSelects(entries: seq<Value>, wrapper: string)
    requires NamesFrom(entries, wrapper).Ok?
    ensures Selects(entries, wrapper, SelectedIndices(entries, wrapper), NamesFrom(entries, wrapper).value)
  {
    if entries != [] {
      var n := |entries| - 1;
      var init, last := entries[..n], entries[n];
      assert entries == init + [last];
      assert NamesFrom(init, wrapper).Ok? && last.JObj?;
      NamesFromSelects(init, wrapper);
      NamesFromSnoc(init, last, wrapper);
      SelectsSnoc(init, last, wrapper, SelectedIndices(init, wrapper), NamesFrom(init, wrapper).value);
    }
  }

  /** `types` / `abilities`: the extracted names, or `["unknown"]` when
      there are none (`names or ["unknown"]`). */
  function WrappedNames(field: Value, wrapper: string): (r: Outcome<seq<Value>>)
    ensures !r.Fail?
    ensures r.Crash? <==> ListCrashes(field)
    ensures r.Ok? ==> |r.value| > 0
  {
    var entries :- Entries(field);
    var names :- NamesFrom(entries, wrapper);
    Ok(if names == [] then [Unknown] else names)
  }

  /** The list is `["unknown"]` when no entry is named; otherwise it is the
      names of the named entries, in order, with nothing added. */
  lemma WrappedNamesMeaning(field: Value, wrapper: string)
    requires WrappedNames(field, wrapper).Ok?
    ensures var items := ListItems(field);
      (forall i :: 0 <= i < |items| ==> !Named(items[i], wrapper)) ==>
        WrappedNames(field, wrapper).value == [Unknown]
    ensures var items := ListItems(field);
      (exists i :: 0 <= i < |items| && Named(items[i], wrapper)) ==>
        Selects(items, wrapper, SelectedIndices(items, wrapper), WrappedNames(field, wrapper).value)
  {
    var items := ListItems(field);
    assert Entries(field) == Ok(items);
    NamesFromSelects(items, wrapper);
    var idx := SelectedIndices(items, wrapper);
    var names := NamesFrom(items, wrapper).value;
    if exists i :: 0 <= i < |items| && Named(items[i], wrapper) {
      var i :| 0 <= i < |items| && Named(items[i], wrapper);
      assert i in idx;
      assert names != [];
    } else {
      NoneSelected(items, wrapper);
      assert names == [];
    }
  }

  // ---- Stats ----

  /** The entry passes the test `isinstance(stat, dict) and
      stat.get("name") is not None and base is not None`. */
  predicate StatEntry(e: Value) {
    && e.JObj?
    && Get(e.fields, "stat").JObj?
    && Get(Get(e.fields, "stat").fields, "name") != JNull
    && Get(e.fields, "base_stat") != JNull
  }

  function StatName(e: Value): Value
    requires StatEntry(e)
  {
    Get(Get(e.fields, "stat").fields, "name")
  }

  function StatBase(e: Value): Value
    requires StatEntry(e)
  {
    Get(e.fields, "base_stat")
  }

  /** Lists and objects cannot be dict keys: storing under one raises. */
  predicate Hashable(v: Value) {
    !v.JArr? && !v.JObj?
  }

  /** The dict key a hashable, non-null name stands for. */
  function KeyOf(v: Value): (k: StatKey)
    requires Hashable(v) && v != JNull
    ensures v.JStr? ==> k == KeyStr(v.s)
    ensures v.JInt? ==> k == KeyInt(v.i)
    ensures v.JBool? ==> k == KeyInt(if v.b then 1 else 0)
  {
    if v.JStr? then KeyStr(v.s)
    else if v.JInt? then KeyInt(v.i)
    else KeyInt(if v.b then 1 else 0)
  }

  /** Python `==` on hashable, non-null JSON scalars: strings equal
      strings with the same characters; `bool` is a subclass of `int`, so
      `True == 1` and `False == 0`; a string never equals a number. */
  predicate PyEq(a: Value, b: Value) {
    match (a, b)
    case (JStr(x), JStr(y)) => x == y
    case (JInt(x), JInt(y)) => x == y
    case (JBool(p), JBool(q)) => p == q
    case (JBool(p), JInt(y)) => y == (if p then 1 else 0)
    case (JInt(x), JBool(q)) => x == (if q then 1 else 0)
    case _ => false
  }

  /** Two names land on the same stats key exactly when Python finds them
      equal, which is when a dict treats them as the same key. */
  lemma KeyOfIsPyEq(a: Value, b: Value)
    requires Hashable(a) && a != JNull && Hashable(b) && b != JNull
    ensures KeyOf(a) == KeyOf(b) <==> PyEq(a, b)
  {
  }

  /** `True` and `1` collide as keys; `"1"` and `1` do not. */
  lemma KeyCollisions()
    ensures KeyOf(JBool(true)) == KeyOf(JInt(1))
    ensures KeyOf(JBool(false)) == KeyOf(JInt(0))
    ensures KeyOf(JStr("1")) != KeyOf(JInt(1))
    ensures KeyOf(JBool(true)) != KeyOf(JBool(false))
  {
  }

  /** The entry is stored, and under `key`. */
  predicate Keyed(e: Value, key: StatKey) {
    StatEntry(e) && Hashable(StatName(e)) && KeyOf(StatName(e)) == key
  }

  /** Processing this entry raises: it has no `.get`, or its name cannot be
      a dict key. */
  predicate StatCrashes(e: Value) {
    !e.JObj? || (StatEntry(e) && !Hashable(StatName(e)))
  }

  /** The loop `stats[stat["name"]] = base` over the entries. */
  function StatsFrom(entries: seq<Value>): (r: Outcome<map<StatKey, Value>>)
    ensures !r.Fail?
    ensures r.Crash? <==> exists k :: 0 <= k < |entries| && StatCrashes(entries[k])
  {
    if entries == [] then Ok(map[])
    else
      var init := entries[..|entries| - 1];
      var last := entries[|entries| - 1];
      var stats :- StatsFrom(init);
      if !last.JObj? then Crash
      else if StatEntry(last) then
        if Hashable(StatName(last)) then Ok(stats[KeyOf(StatName(last)) := StatBase(last)])
        else Crash
      else Ok(stats)
  }

  /** Entry `i` is stored under `key` and no later entry is. */
  predicate LastKeyedAt(entries: seq<Value>, key: StatKey, i: int) {
    && 0 <= i < |entries| && Keyed(entries[i], key)
    && forall j :: i < j < |entries| ==> !Keyed(entries[j], key)
  }

  /** `m` has a key exactly when some entry is stored under it. */
  ghost predicate KeysFromEntries(entries: seq<Value>, m: map<StatKey, Value>) {
    forall key :: key in m <==> exists i :: 0 <= i < |entries| && Keyed(entries[i], key)
  }

  /** Every value of `m` is the base stat of the last entry stored under its key. */
  ghost predicate LastEntryWins(entries: seq<Value>, m: map<StatKey, Value>) {
    forall key :: key in m ==> exists i :: LastKeyedAt(entries, key, i) && m[key] == StatBase(entries[i])
  }

  /** One more loop iteration keeps the key set: `m` is what the loop body
      leaves after processing `last`. */
  lemma StatsStepKeys(init: seq<Value>, last: Value, m0: map<StatKey, Value>, m: map<StatKey, Value>)
    requires KeysFromEntries(init, m0)
    requires forall key :: key in m <==> key in m0 || Keyed(last, key)
    ensures KeysFromEntries(init + [last], m)
  {
    var entries := init + [last];
    var n := |init|;
    forall key
      ensures key in m <==> exists i :: 0 <= i < |entries| && Keyed(entries[i], key)
    {
      if Keyed(last, key) {
        assert Keyed(entries[n], key);
      } else if key in m {
        var i :| 0 <= i < n && Keyed(init[i], key);
        assert entries[i] == init[i];
      }
    }
  }

  /** One more loop iteration keeps the last-wins values. */
  lemma StatsStepValues(init: seq<Value>, last: Value, m0: map<StatKey, Value>, m: map<StatKey, Value>)
    requires LastEntryWins(init, m0)
    requires forall key :: key in m <==> key in m0 || Keyed(last, key)
    requires forall key :: key in m && Keyed(last, key) ==> m[key] == StatBase(last)
    requires forall key :: key in m && !Keyed(last, key) ==> m[key] == m0[key]
    ensures LastEntryWins(init + [last], m)
  {
    var entries := init + [last];
    var n := |init|;
    forall key | key in m
      ensures exists i :: LastKeyedAt(entries, key, i) && m[key] == StatBase(entries[i])
    {
      if Keyed(last, key) {
        assert LastKeyedAt(entries, key, n);
      } else {
        var i :| LastKeyedAt(init, key, i) && m0[key] == StatBase(init[i]);
        assert entries[i] == init[i];
        assert LastKeyedAt(entries, key, i);
      }
    }
  }

  /** A key is present exactly when some entry is stored under it, and its
      value is the base stat of the last such entry. */
  lemma {:induction false} StatsLastWins(entries: seq<Value>)
    requires StatsFrom(entries).Ok?
    ensures KeysFromEntries(entries, StatsFrom(entries).value)
    ensures LastEntryWins(entries, StatsFrom(entries).value)
  {
    if entries != [] {
      var n := |entries| - 1;
      var init := entries[..n];
      assert entries == init + [entries[n]];
      StatsLastWins(init);
      var last, m0, m := entries[n], StatsFrom(init).value, StatsFrom(entries).value;
      if StatEntry(last) {
        assert m == m0[KeyOf(StatName(last)) := StatBase(last)];
      } else {
        assert m == m0;
      }
      StatsStepKeys(init, last, m0, m);
      StatsStepValues(init, last, m0, m);
    }
  }

  ghost predicate StatsListCrashes(v: Value) {
    ListCrashes(v) || (v.JArr? && exists k :: 0 <= k < |v.items| && StatCrashes(v.items[k]))
  }

  /** `stats`: the mapping built from the `stats` list, empty when absent. */
  function StatsField(field: Value): (r: Outcome<map<StatKey, Value>>)
    ensures !r.Fail?
    ensures r.Crash? <==> StatsListCrashes(field)
    ensures r.Ok? ==> r == StatsFrom(ListItems(field))
  {
    var entries :- Entries(field);
    StatsFrom(entries)
  }

  // ---- The normaliser ----

  /** `parse_pokemon_response`. */
  function ParsePokemon(raw: Value): (r: Outcome<Pokemon>)
    ensures r.Fail? <==> !raw.JObj? || Get(raw.fields, "name") == JNull
    ensures !raw.JObj? ==> r == Fail(NotObjectMessage)
    ensures raw.JObj? && Get(raw.fields, "name") == JNull ==> r == Fail(MissingNameMessage)
    ensures r.Crash? <==>
      && raw.JObj? && Get(raw.fields, "name") != JNull
      && (|| ListCrashes(GetOr(raw.fields, "types", JArr([])))
          || ListCrashes(GetOr(raw.fields, "abilities", JArr([])))
          || StatsListCrashes(GetOr(raw.fields, "stats", JArr([]))))
    ensures r.Ok? ==> "name" in raw.fields && r.value.name == raw.fields["name"]
    ensures r.Ok? ==>
      && r.value.id == Get(raw.fields, "id")
      && r.value.height == Get(raw.fields, "height")
      && r.value.weight == Get(raw.fields, "weight")
      && r.value.baseExperience == Get(raw.fields, "base_experience")
    ensures r.Ok? ==> |r.value.types| > 0 && |r.value.abilities| > 0
  {
    if !raw.JObj? then Fail(NotObjectMessage)
    else
      var f := raw.fields;
      var name := Get(f, "name");
      if name == JNull then Fail(MissingNameMessage)
      else
        var types :- WrappedNames(GetOr(f, "types", JArr([])), "type");
        var abilities :- WrappedNames(GetOr(f, "abilities", JArr([])), "ability");
        var stats :- StatsField(GetOr(f, "stats", JArr([])));
        Ok(Pokemon(Get(f, "id"), name, Get(f, "height"), Get(f, "weight"),
                   Get(f, "base_experience"), types, abilities, stats))
  }

  /** In a parsed record, `types` and `abilities` are the named entries'
      names in order, or `["unknown"]` when no entry is named. */
  lemma ParsedNameLists(raw: Value)
    requires ParsePokemon(raw).Ok?
    ensures var items := ListItems(GetOr(raw.fields, "types", JArr([])));
      && ((forall i :: 0 <= i < |items| ==> !Named(items[i], "type")) ==>
            ParsePokemon(raw).value.types == [Unknown])
      && ((exists i :: 0 <= i < |items| && Named(items[i], "type")) ==>
            Selects(items, "type", SelectedIndices(items, "type"), ParsePokemon(raw).value.types))
    ensures var items := ListItems(GetOr(raw.fields, "abilities", JArr([])));
      && ((forall i :: 0 <= i < |items| ==> !Named(items[i], "ability")) ==>
            ParsePokemon(raw).value.abilities == [Unknown])
      && ((exists i :: 0 <= i < |items| && Named(items[i], "ability")) ==>
            Selects(items, "ability", SelectedIndices(items, "ability"), ParsePokemon(raw).value.abilities))
  {
    WrappedNamesMeaning(GetOr(raw.fields, "types", JArr([])), "type");
    WrappedNamesMeaning(GetOr(raw.fields, "abilities", JArr([])), "ability");
  }

  /** In a parsed record, `stats` holds a key exactly when some entry of the
      `stats` list is stored under it, with the last such entry's value; an
      absent `stats` list gives the empty mapping. */
  lemma ParsedStats(raw: Value)
    requires ParsePokemon(raw).Ok?
    ensures var items := ListItems(GetOr(raw.fields, "stats", JArr([])));
      KeysFromEntries(items, ParsePokemon(raw).value.stats)
      && LastEntryWins(items, ParsePokemon(raw).value.stats)
    ensures "stats" !in raw.fields ==> ParsePokemon(raw).value.stats == map[]
  {
    StatsLastWins(ListItems(GetOr(raw.fields, "stats", JArr([]))));
  }

  // ---- Worked examples ----

  /** The full record of the unit tests. */
  const ExampleTypes := JArr([JObj(map["type" := JObj(map["name" := JStr("fire")])]),
                              JObj(map["type" := JObj(map["name" := JStr("flying")])])])
  const ExampleAbilities := JArr([JObj(map["ability" := JObj(map["name" := JStr("blaze")])]),
                                  JObj(map["ability" := JObj(map["name" := JStr("solar-power"), "url" := JStr("x")])])])
  const ExampleStats := JArr([JObj(map["stat" := JObj(map["name" := JStr("hp")]), "base_stat" := JInt(78)]),
                              JObj(map["stat" := JObj(map["name" := JStr("attack")]), "base_stat" := JInt(84)])])
  const ExampleRaw := JObj(map[
    "name" := JStr("charizard"), "id" := JInt(6), "height" := JInt(17),
    "weight" := JInt(905), "base_experience" := JInt(240),
    "types" := ExampleTypes, "abilities" := ExampleAbilities, "stats" := ExampleStats])

  lemma ExampleNameLists()
    ensures WrappedNames(ExampleTypes, "type") == Ok([JStr("fire"), JStr("flying")])
    ensures WrappedNames(ExampleAbilities, "ability") == Ok([JStr("blaze"), JStr("solar-power")])
  {
    var fire, flying := ExampleTypes.items[0], ExampleTypes.items[1];
    assert Named(fire, "type") && NameOf(fire, "type") == JStr("fire");
    assert Named(flying, "type") && NameOf(flying, "type") == JStr("flying");
    NamesFromSnoc([], fire, "type");
    assert [] + [fire] == [fire];
    NamesFromSnoc([fire], flying, "type");
    assert [fire] + [flying] == ExampleTypes.items;
    assert ([] + [JStr("fire")]) + [JStr("flying")] == [JStr("fire"), JStr("flying")];
    assert NamesFrom(ExampleTypes.items, "type") == Ok([JStr("fire"), JStr("flying")]);
    var blaze, solar := ExampleAbilities.items[0], ExampleAbilities.items[1];
    assert Named(blaze, "ability") && NameOf(blaze, "ability") == JStr("blaze");
    assert Named(solar, "ability") && NameOf(solar, "ability") == JStr("solar-power");
    NamesFromSnoc([], blaze, "ability");
    assert [] + [blaze] == [blaze];
    NamesFromSnoc([blaze], solar, "ability");
    assert [blaze] + [solar] == ExampleAbilities.items;
    assert ([] + [JStr("blaze")]) + [JStr("solar-power")] == [JStr("blaze"), JStr("solar-power")];
    assert NamesFrom(ExampleAbilities.items, "ability") == Ok([JStr("blaze"), JStr("solar-power")]);
  }

  lemma ExampleStatsMap()
    ensures StatsField(ExampleStats) == Ok(map[KeyStr("hp") := JInt(78), KeyStr("attack") := JInt(84)])
  {
    var stats := ExampleStats.items;
    assert stats[..1][..0] == [];
    assert StatsFrom(stats[..1]) == Ok(map[KeyStr("hp") := JInt(78)]);
    assert stats[..|stats| - 1] == stats[..1];
    assert StatsFrom(stats) == Ok(map[KeyStr("hp") := JInt(78)][KeyStr("attack") := JInt(84)]);
    assert Entries(ExampleStats) == Ok(stats);
  }

  /** The full record of the unit tests yields the lists and mapping they
      expect; its scalar fields are copied as `ParsePokemon` states. */
  lemma FullRecordExample()
    ensures ParsePokemon(ExampleRaw).Ok?
    ensures ParsePokemon(ExampleRaw).value.types == [JStr("fire"), JStr("flying")]
    ensures ParsePokemon(ExampleRaw).value.abilities == [JStr("blaze"), JStr("solar-power")]
    ensures ParsePokemon(ExampleRaw).value.stats == map[KeyStr("hp") := JInt(78), KeyStr("attack") := JInt(84)]
  {
    ExampleNameLists();
    ExampleStatsMap();
    var f := ExampleRaw.fields;
    assert GetOr(f, "types", JArr([])) == ExampleTypes;
    assert GetOr(f, "abilities", JArr([])) == ExampleAbilities;
    assert GetOr(f, "stats", JArr([])) == ExampleStats;
    assert Get(f, "name") == JStr("charizard");
  }

  /** Only a missing or null name is refused: an empty string or a number
      passes and is copied, and the absent lists fall back as documented. */
  lemma OddNamesPass()
    ensures ParsePokemon(JObj(map["name" := JStr("")])) ==
      Ok(Pokemon(JNull, JStr(""), JNull, JNull, JNull, [Unknown], [Unknown], map[]))
    ensures ParsePokemon(JObj(map["name" := JInt(0)])).Ok?
    ensures ParsePokemon(JObj(map["name" := JNull])) == Fail(MissingNameMessage)
    ensures ParsePokemon(JArr([])) == Fail(NotObjectMessage)
  {
  }

  /** A present but null `types` list cannot be iterated: the parse raises
      rather than failing with a lookup error or falling back. */
  lemma NullListRaises()
    ensures ParsePokemon(JObj(map["name" := JStr("x"), "types" := JNull])) == Crash
    ensures ParsePokemon(JObj(map["name" := JStr("x"), "types" := JArr([JNull])])) == Crash
    ensures ParsePokemon(JObj(map["name" := JStr("x"), "types" := JArr([JObj(map[])])])).Ok?
  {
    assert !JArr([JNull]).items[0].JObj?;
    assert [JObj(map[])][..0] == [];
  }

  // ---- Fetch, then parse ----

  /** `get_pokemon_data`: the fetch's failure, or the parse of what it
      fetched. */
  function GetPokemonData(ident: string, timeout: int, get: GetRequest -> Transport): (t: Traced<Pokemon, GetRequest>)
    ensures t.sent == [GetRequest(LookupUrl(ident), timeout)]
    ensures get(t.sent[0]).Raised? ==> t.result == Crash
    ensures !get(t.sent[0]).Decoded? && !get(t.sent[0]).Raised? ==>
      t.result.Fail? && t.result.msg == FetchPokemon(ident, timeout, get).result.msg
    ensures get(t.sent[0]).Decoded? ==> t.result == ParsePokemon(get(t.sent[0]).json)
    ensures t.result.Ok? ==>
      && get(t.sent[0]).Decoded? && get(t.sent[0]).json.JObj?
      && t.result.value.name == get(t.sent[0]).json.fields["name"]
  {
    var fetched := FetchPokemon(ident, timeout, get);
    var result :=
      match fetched.result
      case Ok(raw) => ParsePokemon(raw)
      case Fail(msg) => Fail(msg)
      case Crash => Crash;
    Traced(result, fetched.sent)
  }
}
