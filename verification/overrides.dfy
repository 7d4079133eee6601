/**
 * Wiring and unwiring product.overrides.json in scripts/mock-policy-server/server.ts. Texts of files
 * are opaque; parsing and printing are given, and what was printed parses back to the same value.
 * Reading, copying and writing files succeed; a product.json that cannot be read is modelled.
 */
module OverridesWiring {
  import opened Prelude
  import opened JsonValues

  datatype Endpoint = Endpoint(productKey: string, url: string)

  datatype Config = Config(
    endpoints: seq<Endpoint>, product: Option<Json>, parse: string -> Option<Json>, render: Json -> string)
  {
    ghost predicate Valid() {
      forall v :: parse(render(v)) == Some(v)
    }
  }

  // The overrides file and its backup.
  datatype Files = Files(overrides: Option<string>, backup: Option<string>)

  const AGENT := "defaultChatAgent"

  function Digit(n: nat): char
    requires n < 10
  {
    "0123456789"[n]
  }

  function Decimal(n: nat): string {
    if n < 10 then [Digit(n)] else Decimal(n / 10) + [Digit(n % 10)]
  }

  function Indexed(items: seq<Json>): map<string, Json> {
    if items == [] then map[]
    else Indexed(items[..|items| - 1])[Decimal(|items| - 1) := items[|items| - 1]]
  }

  // The own enumerable properties of a value, as the spread syntax copies them.
  function Spread(v: Json): map<string, Json> {
    match v
    case Obj(fields) => fields
    case Arr(items) => Indexed(items)
    case Str(text) => Indexed(seq(|text|, i requires 0 <= i < |text| => Str([text[i]])))
    case _ => map[]
  }

  // The `defaultChatAgent` property, where there is one.
  function AgentOf(v: Json): Option<Json> {
    if v.Obj? && AGENT in v.fields then Some(v.fields[AGENT]) else None
  }

  predicate Truthy(v: Json) {
    match v
    case Null => false
    case Bool(b) => b
    case Num(n) => n != 0.0
    case Str(s) => s != ""
    case _ => true
  }

  // A missing or null agent gives way to the other one.
  function OrElse(agent: Option<Json>, other: Json): Json {
    if agent.Some? && agent.value != Null then agent.value else other
  }

  function BaseAgent(product: Json): Json {
    OrElse(AgentOf(product), Obj(map[]))
  }

  function UrlMap(endpoints: seq<Endpoint>): map<string, Json> {
    if endpoints == [] then map[]
    else
      var last := endpoints[|endpoints| - 1];
      UrlMap(endpoints[..|endpoints| - 1])[last.productKey := Str(last.url)]
  }

  function KeysOf(endpoints: seq<Endpoint>): set<string> {
    set e | e in endpoints :: e.productKey
  }

  // The value of the overrides file; one that is absent or does not parse counts as empty.
  function ReadOverrides(config: Config, fs: Files): Json {
    if fs.overrides.None? then Obj(map[])
    else match config.parse(fs.overrides.value)
      case Some(v) => v
      case None => Obj(map[])
  }

  function WiredAgent(base: Json, overrides: Json, urls: map<string, Json>): Json {
    Obj(Spread(base) + Spread(OrElse(AgentOf(overrides), base)) + urls)
  }

  // Setting the property only shows on an object: a primitive ignores it and an array does not
  // print it.
  function WithAgent(v: Json, agent: Json): Json {
    if v.Obj? then Obj(v.fields[AGENT := agent]) else v
  }

  // Wiring, and whether it did not throw. On an overrides file holding null it throws after the
  // backup was made.
  function Wire(config: Config, fs: Files): (Files, bool) {
    if config.product.None? then (fs, false)
    else
      var base := BaseAgent(config.product.value);
      var backup := if fs.overrides.Some? then fs.overrides else fs.backup;
      var overrides := ReadOverrides(config, fs);
      if overrides.Null? then (Files(fs.overrides, backup), false)
      else
        var agent := WiredAgent(base, overrides, UrlMap(config.endpoints));
        (Files(Some(config.render(WithAgent(overrides, agent))), backup), true)
  }

  // The agent with each of `keys` as it is in the base, or gone.
  function Reverted(agent: map<string, Json>, base: map<string, Json>, keys: set<string>): map<string, Json> {
    map k | k in agent.Keys + base.Keys && (if k in keys then k in base else k in agent) ::
      if k in keys then base[k] else agent[k]
  }

  function Unwire(config: Config, fs: Files): (Files, bool) {
    if fs.backup.Some? then (Files(fs.backup, None), true)
    else if fs.overrides.None? || config.parse(fs.overrides.value).None? then (fs, true)
    else
      var overrides := config.parse(fs.overrides.value).value;
      if overrides.Null? then (fs, false)
      else
        var agent := AgentOf(overrides);
        if agent.None? || !Truthy(agent.value) then (fs, true)
        else if config.product.None? then (fs, false)
        else
          var base := Spread(BaseAgent(config.product.value));
          var reverted := Reverted(Spread(agent.value), base, KeysOf(config.endpoints));
          var fields :=
            if reverted == base then overrides.fields - {AGENT}
            else overrides.fields[AGENT := Obj(reverted)];
          (Files(if fields == map[] then None else Some(config.render(Obj(fields))), None), true)
  }

  predicate IsWired(config: Config, fs: Files) {
    && fs.overrides.Some?
    && config.parse(fs.overrides.value).Some?
    && (var agent := AgentOf(config.parse(fs.overrides.value).value);
        && agent.Some? && Truthy(agent.value)
        && (forall k :: k in UrlMap(config.endpoints) ==>
              k in Spread(agent.value) && Spread(agent.value)[k] == UrlMap(config.endpoints)[k]))
  }

  // ---------------------------------------------------------------------------------------------
  // Spreading

  function FromDecimal(s: string): int {
    if s == [] then 0 else FromDecimal(s[..|s| - 1]) * 10 + (s[|s| - 1] as int - '0' as int)
  }

  lemma {:induction false} DecimalRoundTrip(n: nat)
    ensures Decimal(n) != [] && FromDecimal(Decimal(n)) == n
  {
    if n < 10 {
      assert [Digit(n)][..0] == [];
    } else {
      DecimalRoundTrip(n / 10);
      assert Decimal(n)[..|Decimal(n)| - 1] == Decimal(n / 10);
    }
  }

  // Arrays spread as their elements under their indices in decimal.
  lemma {:induction false} IndexedAt(items: seq<Json>, k: nat)
    requires k < |items|
    ensures Decimal(k) in Indexed(items) && Indexed(items)[Decimal(k)] == items[k]
    decreases |items|
  {
    var n := |items| - 1;
    if k < n {
      IndexedAt(items[..n], k);
      DecimalRoundTrip(k);
      DecimalRoundTrip(n);
    }
  }

  lemma {:induction false} IndexedKeys(items: seq<Json>, key: string)
    requires key in Indexed(items)
    ensures exists k :: 0 <= k < |items| && key == Decimal(k)
    decreases |items|
  {
    var n := |items| - 1;
    if key != Decimal(n) { IndexedKeys(items[..n], key); }
  }

  // What the spread syntax copies: an object's fields; an array's elements and a text's characters by
  // index; nothing from anything else.
  lemma SpreadIs(v: Json)
    ensures v.Obj? ==> Spread(v) == v.fields
    ensures v.Arr? ==> forall k :: 0 <= k < |v.items| ==>
      Decimal(k) in Spread(v) && Spread(v)[Decimal(k)] == v.items[k]
    ensures v.Str? ==> forall k :: 0 <= k < |v.text| ==>
      Decimal(k) in Spread(v) && Spread(v)[Decimal(k)] == Str([v.text[k]])
    ensures v.Arr? || v.Str? ==> forall key :: key in Spread(v) ==>
      exists k :: 0 <= k < (if v.Arr? then |v.items| else |v.text|) && key == Decimal(k)
    ensures v.Null? || v.Bool? || v.Num? ==> Spread(v) == map[]
  {
    hide Indexed, Decimal;
    if v.Arr? || v.Str? {
      var items := if v.Arr? then v.items else seq(|v.text|, i requires 0 <= i < |v.text| => Str([v.text[i]]));
      assert Spread(v) == Indexed(items);
      forall k | 0 <= k < |items| ensures Decimal(k) in Indexed(items) && Indexed(items)[Decimal(k)] == items[k] {
        IndexedAt(items, k);
      }
      forall key | key in Indexed(items) ensures exists k :: 0 <= k < |items| && key == Decimal(k) {
        IndexedKeys(items, key);
      }
    }
  }

  // ---------------------------------------------------------------------------------------------
  // Wiring

  lemma {:induction false} UrlKeys(endpoints: seq<Endpoint>)
    ensures UrlMap(endpoints).Keys == KeysOf(endpoints)
  {
    if endpoints == [] {
    } else {
      var front, last := endpoints[..|endpoints| - 1], endpoints[|endpoints| - 1];
      assert endpoints == front + [last];
      assert forall e :: e in endpoints <==> e in front || e == last;
      UrlKeys(front);
    }
  }

  // No later endpoint has the product key of endpoint `k`.
  predicate LastOfKey(endpoints: seq<Endpoint>, k: nat) {
    k < |endpoints| && forall j :: k < j < |endpoints| ==> endpoints[j].productKey != endpoints[k].productKey
  }

  // Each product key gets the address of its last endpoint.
  lemma {:induction false} UrlMapAt(endpoints: seq<Endpoint>, k: nat)
    requires LastOfKey(endpoints, k)
    ensures endpoints[k].productKey in UrlMap(endpoints)
    ensures UrlMap(endpoints)[endpoints[k].productKey] == Str(endpoints[k].url)
    decreases |endpoints|
  {
    var n := |endpoints| - 1;
    if k < n {
      assert forall j :: 0 <= j < n ==> endpoints[..n][j] == endpoints[j];
      UrlMapAt(endpoints[..n], k);
    }
  }

  lemma {:induction false} SomeLast(endpoints: seq<Endpoint>, key: string) returns (k: nat)
    requires key in UrlMap(endpoints)
    ensures LastOfKey(endpoints, k) && endpoints[k].productKey == key
    decreases |endpoints|
  {
    var n := |endpoints| - 1;
    if endpoints[n].productKey == key {
      k := n;
    } else {
      k := SomeLast(endpoints[..n], key);
      assert forall j :: 0 <= j < n ==> endpoints[..n][j] == endpoints[j];
    }
  }

  // The product's agent: the property if it is there and not null, else nothing.
  lemma BaseAgentIs(product: Json)
    ensures BaseAgent(product) ==
      if product.Obj? && "defaultChatAgent" in product.fields && product.fields["defaultChatAgent"] != Null
      then product.fields["defaultChatAgent"]
      else Obj(map[])
  {
  }

  lemma ReadOverridesIs(config: Config, fs: Files)
    ensures fs.overrides.None? ==> ReadOverrides(config, fs) == Obj(map[])
    ensures fs.overrides.Some? && config.parse(fs.overrides.value).None? ==> ReadOverrides(config, fs) == Obj(map[])
    ensures fs.overrides.Some? && config.parse(fs.overrides.value).Some? ==>
      ReadOverrides(config, fs) == config.parse(fs.overrides.value).value
  {
  }

  // Wired means: the file parses to an object with an agent object in which each product key has the
  // address of its last endpoint.
  lemma WiredMeans(config: Config, fs: Files)
    requires fs.overrides.Some? && config.parse(fs.overrides.value).Some?
    requires var v := config.parse(fs.overrides.value).value;
      v.Obj? && "defaultChatAgent" in v.fields && v.fields["defaultChatAgent"].Obj?
    ensures var agent := config.parse(fs.overrides.value).value.fields["defaultChatAgent"].fields;
      IsWired(config, fs) <==>
        forall k :: 0 <= k < |config.endpoints| && LastOfKey(config.endpoints, k) ==>
          && config.endpoints[k].productKey in agent
          && agent[config.endpoints[k].productKey] == Str(config.endpoints[k].url)
  {
    var endpoints := config.endpoints;
    var agent := config.parse(fs.overrides.value).value.fields["defaultChatAgent"].fields;
    hide UrlMap;
    forall k | 0 <= k < |endpoints| && LastOfKey(endpoints, k)
      ensures endpoints[k].productKey in UrlMap(endpoints)
      ensures UrlMap(endpoints)[endpoints[k].productKey] == Str(endpoints[k].url)
    {
      UrlMapAt(endpoints, k);
    }
    forall key | key in UrlMap(endpoints)
      ensures exists k: nat :: LastOfKey(endpoints, k) && endpoints[k].productKey == key
    {
      var k := SomeLast(endpoints, key);
    }
  }

  // Without a file, or with one that does not parse, to an object, or whose agent is missing, null or
  // not an object, nothing is wired.
  lemma NotWired(config: Config, fs: Files)
    requires match fs.overrides
      case None => true
      case Some(text) =>
        match config.parse(text)
        case Some(Obj(fields)) => "defaultChatAgent" !in fields || fields["defaultChatAgent"] == Null
        case _ => true
    ensures !IsWired(config, fs)
  {
  }

  // After wiring, every endpoint points at the server, exactly when the overrides file was absent,
  // did not parse or held an object.
  lemma WiredIff(config: Config, fs: Files)
    requires config.Valid() && config.product.Some?
    ensures IsWired(config, Wire(config, fs).0) <==>
      (fs.overrides.Some? && config.parse(fs.overrides.value).Some? ==> config.parse(fs.overrides.value).value.Obj?)
    ensures Wire(config, fs).1 <==> !(fs.overrides.Some? && config.parse(fs.overrides.value) == Some(Null))
  {
    var overrides := ReadOverrides(config, fs);
    var agent := WiredAgent(BaseAgent(config.product.value), overrides, UrlMap(config.endpoints));
    assert config.parse(config.render(WithAgent(overrides, agent))) == Some(WithAgent(overrides, agent));
    hide Spread, UrlMap, BaseAgent;
    UnfoldSpread(agent);
  }

  lemma UnfoldSpread(v: Json)
    ensures v.Obj? ==> Spread(v) == v.fields
  {
  }

  // Without a readable product file wiring does nothing but throw.
  lemma NoProduct(config: Config, fs: Files)
    requires config.product.None?
    ensures Wire(config, fs) == (fs, false)
  {
  }

  // Wiring keeps every other top-level override, every key of the product's agent, and the
  // overrides of the agent that are not endpoint addresses.
  lemma WireKeepsTheRest(config: Config, fs: Files)
    requires config.Valid() && config.product.Some? && ReadOverrides(config, fs).Obj?
    ensures var before, after := ReadOverrides(config, fs), ReadOverrides(config, Wire(config, fs).0);
      var base := Spread(BaseAgent(config.product.value));
      && after.Obj? && after.fields.Keys == before.fields.Keys + {"defaultChatAgent"}
      && (forall k :: k in before.fields && k != "defaultChatAgent" ==> after.fields[k] == before.fields[k])
      && (var own, agent := Spread(OrElse(AgentOf(before), Obj(map[]))), after.fields[AGENT];
          && agent.Obj? && agent.fields.Keys == base.Keys + own.Keys + KeysOf(config.endpoints)
          && (forall k :: k in agent.fields && k !in KeysOf(config.endpoints) ==>
                agent.fields[k] == if k in own then own[k] else base[k])
          && (forall k :: 0 <= k < |config.endpoints| && LastOfKey(config.endpoints, k) ==>
                agent.fields[config.endpoints[k].productKey] == Str(config.endpoints[k].url)))
  {
    forall k | 0 <= k < |config.endpoints| && LastOfKey(config.endpoints, k)
      ensures config.endpoints[k].productKey in UrlMap(config.endpoints)
      ensures UrlMap(config.endpoints)[config.endpoints[k].productKey] == Str(config.endpoints[k].url)
    {
      UrlMapAt(config.endpoints, k);
    }
    UrlKeys(config.endpoints);
    var overrides := ReadOverrides(config, fs);
    var agent := WiredAgent(BaseAgent(config.product.value), overrides, UrlMap(config.endpoints));
    assert config.parse(config.render(WithAgent(overrides, agent))) == Some(WithAgent(overrides, agent));
    UnfoldSpread(Obj(map[]));
    hide Spread, UrlMap, BaseAgent, KeysOf;
  }

  // Wiring again changes nothing but the backup.
  lemma WireIsIdempotent(config: Config, fs: Files)
    requires config.Valid() && config.product.Some? && ReadOverrides(config, fs).Obj?
    ensures var once := Wire(config, fs).0;
      Wire(config, once).0 == Files(once.overrides, once.overrides)
  {
    var overrides := ReadOverrides(config, fs);
    var base, urls := BaseAgent(config.product.value), UrlMap(config.endpoints);
    var agent := WiredAgent(base, overrides, urls);
    var wired := WithAgent(overrides, agent);
    assert config.parse(config.render(wired)) == Some(wired);
    AgentIsIdempotent(base, overrides, urls);
    assert wired.fields[AGENT := agent] == wired.fields;
    hide Spread, UrlMap, BaseAgent, WiredAgent;
  }

  lemma AgentIsIdempotent(base: Json, overrides: Json, urls: map<string, Json>)
    requires overrides.Obj?
    ensures var agent := WiredAgent(base, overrides, urls);
      agent.Obj? && WiredAgent(base, WithAgent(overrides, agent), urls) == agent
  {
    var agent := WiredAgent(base, overrides, urls);
    assert AgentOf(WithAgent(overrides, agent)) == Some(agent);
    UnfoldSpread(agent);
    var b, o := Spread(base), Spread(OrElse(AgentOf(overrides), base));
    assert b + (b + o + urls) + urls == b + o + urls;
    hide Spread;
  }

  // ---------------------------------------------------------------------------------------------
  // Wire, then unwire

  lemma RevertUrls(base: map<string, Json>, urls: map<string, Json>)
    ensures Reverted(base + base + urls, base, urls.Keys) == base
  {
  }

  // Unwiring after wiring, even after a wiring that threw, gives back the overrides byte for byte
  // if there were any; without overrides it gives the earlier backup, or none when there was none.
  lemma UnwireAfterWire(config: Config, fs: Files)
    requires config.Valid() && config.product.Some?
    ensures Unwire(config, Wire(config, fs).0) ==
      (Files(if fs.overrides.Some? then fs.overrides else fs.backup, None), true)
  {
    if fs.overrides.None? && fs.backup.None? {
      var base, urls := BaseAgent(config.product.value), UrlMap(config.endpoints);
      var agent := WiredAgent(base, Obj(map[]), urls);
      var wired := WithAgent(Obj(map[]), agent);
      assert config.parse(config.render(wired)) == Some(wired);
      UrlKeys(config.endpoints);
      RevertUrls(Spread(base), urls);
      UnfoldSpread(agent);
      assert wired.fields - {AGENT} == map[];
      hide Spread, UrlMap, BaseAgent, Reverted, KeysOf;
    }
  }

  // Wiring and unwiring restores the overrides file, exactly when it existed or there was no
  // earlier backup; in particular whenever there was no earlier backup.
  lemma RestoredIff(config: Config, fs: Files)
    requires config.Valid() && config.product.Some?
    ensures Unwire(config, Wire(config, fs).0).0.overrides == fs.overrides <==> fs.overrides.Some? || fs.backup.None?
    ensures fs.backup.None? ==> Unwire(config, Wire(config, fs).0).0 == fs
  {
    UnwireAfterWire(config, fs);
    hide Wire, Unwire;
  }

  // Wiring twice, then unwiring, leaves what the first wiring wrote, and no backup.
  lemma UnwireAfterTwoWires(config: Config, fs: Files)
    requires config.Valid() && config.product.Some?
    ensures var once := Wire(config, fs).0;
      Unwire(config, Wire(config, once).0).0 ==
        Files(if once.overrides.Some? then once.overrides else once.backup, None)
  {
    UnwireAfterWire(config, Wire(config, fs).0);
    hide Wire, Unwire;
  }

  // So it restores the overrides file exactly when the first wiring left it as it was: when it was
  // already what wiring writes, or held null.
  lemma SecondWireRestoresIff(config: Config, fs: Files)
    requires config.Valid() && config.product.Some?
    ensures var once := Wire(config, fs).0;
      var end := Unwire(config, Wire(config, once).0).0;
      && (end.overrides == fs.overrides <==> once.overrides == fs.overrides)
      && (ReadOverrides(config, fs).Obj? ==> IsWired(config, end))
  {
    UnwireAfterTwoWires(config, fs);
    WiredIff(config, fs);
    NullIsKept(config, fs);
    hide Unwire, ReadOverrides, UrlMap, Spread;
  }

  // A wiring that throws on null leaves the overrides file; any other leaves one.
  lemma NullIsKept(config: Config, fs: Files)
    requires config.Valid() && config.product.Some?
    ensures Wire(config, fs).0.overrides.Some?
    ensures ReadOverrides(config, fs).Null? ==> Wire(config, fs).0.overrides == fs.overrides
  {
  }

  // The loss is real: without an overrides file, wiring once and unwiring leaves none again, wiring
  // twice and unwiring leaves a wired one.
  lemma SecondWireLosesTheOriginal(config: Config)
    requires config.Valid() && config.product.Some?
    ensures var none := Files(None, None);
      var once := Wire(config, none).0;
      && Unwire(config, once).0 == none
      && Unwire(config, Wire(config, once).0).0.overrides.Some?
      && IsWired(config, Unwire(config, Wire(config, once).0).0)
  {
    UnwireAfterWire(config, Files(None, None));
    SecondWireRestoresIff(config, Files(None, None));
    hide Wire, Unwire, IsWired;
  }

  // ---------------------------------------------------------------------------------------------
  // Unwiring without a backup

  // Unwiring without a backup throws on null, and where the product file is needed but cannot be read.
  lemma UnwireThrowsIff(config: Config, fs: Files)
    ensures !Unwire(config, fs).1 <==>
      && fs.backup.None? && fs.overrides.Some? && config.parse(fs.overrides.value).Some?
      && (var v := config.parse(fs.overrides.value).value;
          v.Null? || (config.product.None? && HasAgent(v)))
    ensures !Unwire(config, fs).1 ==> Unwire(config, fs).0 == fs
  {
  }

  // There is an agent that is not null, false, zero or empty text.
  predicate HasAgent(v: Json) {
    && v.Obj? && "defaultChatAgent" in v.fields
    && v.fields["defaultChatAgent"] !in {Null, Bool(false), Num(0.0), Str("")}
  }

  // It leaves the files alone when there is nothing to revert.
  lemma UnwireLeavesAlone(config: Config, fs: Files)
    requires fs.backup.None?
    requires fs.overrides.None? || config.parse(fs.overrides.value).None?
      || !HasAgent(config.parse(fs.overrides.value).value)
    ensures Unwire(config, fs).0 == fs
  {
  }

  // Every endpoint address goes back to that of the product, other overrides stay, and an agent
  // equal to the product's is dropped.
  lemma SurgicalUnwire(config: Config, fs: Files)
    requires config.Valid() && config.product.Some? && fs.backup.None? && fs.overrides.Some?
    requires config.parse(fs.overrides.value).Some?
    requires HasAgent(config.parse(fs.overrides.value).value)
    ensures var before := ReadOverrides(config, fs).fields;
      var after := ReadOverrides(config, Unwire(config, fs).0);
      var base := Spread(BaseAgent(config.product.value));
      && Unwire(config, fs).1 && after.Obj?
      && after.fields - {AGENT} == before - {AGENT}
      && (Unwire(config, fs).0.overrides.None? <==> after.fields == map[])
      && (AGENT in after.fields ==>
            var own, agent := Spread(before[AGENT]), after.fields[AGENT];
            && agent.Obj? && agent.fields != base
            && (forall k :: k in KeysOf(config.endpoints) ==> (k in agent.fields <==> k in base))
            && (forall k :: k in KeysOf(config.endpoints) && k in base ==> agent.fields[k] == base[k])
            && agent.fields - KeysOf(config.endpoints) == own - KeysOf(config.endpoints))
  {
    var overrides := ReadOverrides(config, fs);
    var base := Spread(BaseAgent(config.product.value));
    var own := Spread(overrides.fields[AGENT]);
    var reverted := Reverted(own, base, KeysOf(config.endpoints));
    RevertedParts(own, base, KeysOf(config.endpoints));
    var fields := if reverted == base then overrides.fields - {AGENT} else overrides.fields[AGENT := Obj(reverted)];
    assert config.parse(config.render(Obj(fields))) == Some(Obj(fields));
    assert fields - {AGENT} == overrides.fields - {AGENT};
    hide Spread, UrlMap, BaseAgent, KeysOf, Reverted;
  }

  lemma RevertedParts(agent: map<string, Json>, base: map<string, Json>, keys: set<string>)
    ensures var r := Reverted(agent, base, keys);
      && (forall k :: k in keys ==> (k in r <==> k in base))
      && (forall k :: k in keys && k in base ==> r[k] == base[k])
      && r - keys == agent - keys
  {
  }

  // ---------------------------------------------------------------------------------------------
  // The files on disk

  lemma UrlMapSnoc(endpoints: seq<Endpoint>, i: nat)
    requires i < |endpoints|
    ensures UrlMap(endpoints[..i + 1]) == UrlMap(endpoints[..i])[endpoints[i].productKey := Str(endpoints[i].url)]
  {
    assert endpoints[..i + 1][..i] == endpoints[..i];
  }

  lemma RevertOne(agent: map<string, Json>, base: map<string, Json>, endpoints: seq<Endpoint>, i: nat)
    requires i < |endpoints|
    ensures var key := endpoints[i].productKey;
      var before := Reverted(agent, base, KeysOf(endpoints[..i]));
      Reverted(agent, base, KeysOf(endpoints[..i + 1])) ==
        if key in base then before[key := base[key]] else before - {key}
  {
    assert endpoints[..i + 1] == endpoints[..i] + [endpoints[i]];
    KeysOfSnoc(endpoints[..i], endpoints[i]);
    hide KeysOf;
  }

  lemma KeysOfSnoc(front: seq<Endpoint>, last: Endpoint)
    ensures KeysOf(front + [last]) == KeysOf(front) + {last.productKey}
  {
    forall e | e in front ensures e.productKey in KeysOf(front + [last]) { assert e in front + [last]; }
    assert last in front + [last];
  }

  lemma RevertNone(agent: map<string, Json>, base: map<string, Json>)
    ensures Reverted(agent, base, KeysOf([])) == agent
  {
  }

  class Overrides {
    const config: Config
    var overrides: Option<string>
    var backup: Option<string>

    constructor (config: Config, overrides: Option<string>, backup: Option<string>)
      ensures this.config == config && this.overrides == overrides && this.backup == backup
    {
      this.config, this.overrides, this.backup := config, overrides, backup;
    }

    method OverrideUrls() returns (urls: map<string, Json>)
      ensures urls == UrlMap(config.endpoints)
    {
      urls := map[];
      for i := 0 to |config.endpoints|
        invariant urls == UrlMap(config.endpoints[..i])
      {
        UrlMapSnoc(config.endpoints, i);
        urls := urls[config.endpoints[i].productKey := Str(config.endpoints[i].url)];
      }
      assert config.endpoints[..|config.endpoints|] == config.endpoints;
    }

    method WireOverrides() returns (ok: bool)
      modifies this
      ensures (Files(overrides, backup), ok) == Wire(config, old(Files(overrides, backup)))
    {
      if config.product.None? { return false; }
      var base := BaseAgent(config.product.value);
      if overrides.Some? { backup := overrides; }
      var value := Obj(map[]);
      if overrides.Some? && config.parse(overrides.value).Some? {
        value := config.parse(overrides.value).value;
      }
      if value.Null? { return false; }
      var existing := OrElse(AgentOf(value), base);
      var urls := OverrideUrls();
      overrides := Some(config.render(WithAgent(value, Obj(Spread(base) + Spread(existing) + urls))));
      ok := true;
    }

    // The agent's endpoint addresses put back one by one.
    method RevertAgent(own: map<string, Json>, base: map<string, Json>) returns (agent: map<string, Json>)
      ensures agent == Reverted(own, base, KeysOf(config.endpoints))
    {
      agent := own;
      RevertNone(own, base);
      for i := 0 to |config.endpoints|
        invariant agent == Reverted(own, base, KeysOf(config.endpoints[..i]))
      {
        RevertOne(own, base, config.endpoints, i);
        var key := config.endpoints[i].productKey;
        if key !in base {
          agent := agent - {key};
        } else {
          agent := agent[key := base[key]];
        }
        hide Reverted;
      }
      assert config.endpoints[..|config.endpoints|] == config.endpoints;
    }

    method UnwireOverrides() returns (ok: bool)
      modifies this
      ensures (Files(overrides, backup), ok) == Unwire(config, old(Files(overrides, backup)))
    {
      if backup.Some? {
        overrides, backup := backup, None;
        return true;
      }
      if overrides.None? || config.parse(overrides.value).None? { return true; }
      var value := config.parse(overrides.value).value;
      if value.Null? { return false; }
      var own := AgentOf(value);
      if own.None? || !Truthy(own.value) { return true; }
      if config.product.None? { return false; }
      var base := Spread(BaseAgent(config.product.value));
      var agent := RevertAgent(Spread(own.value), base);
      var fields := value.fields;
      if agent == base {
        fields := fields - {AGENT};
      } else {
        fields := fields[AGENT := Obj(agent)];
      }
      if fields == map[] {
        overrides := None;
      } else {
        overrides := Some(config.render(Obj(fields)));
      }
      ok := true;
    }
  }
}
