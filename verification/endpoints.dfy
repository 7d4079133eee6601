/**
 * The endpoint state of scripts/mock-policy-server/server.ts: batches of updates are checked as a
 * whole and only then applied. Entries are values here, so copying the state is copying the map.
 */
module EndpointState {
  import opened Prelude
  import opened JsonValues

  datatype Preset = Preset(id: string, status: Option<int>, body: Json)

  datatype Endpoint = Endpoint(id: string, presets: seq<Preset>, mockedByDefault: bool)

  datatype Entry = Entry(status: int, body: Json, active: bool)

  type State = map<string, Entry>

  datatype Update = Update(
    endpoint: string, preset: Option<string>, status: Option<int>, body: Option<Json>, active: Option<bool>)

  // `place` is the position in a batch of more than one update.
  datatype Error =
    | BodyNotObject
    | UnknownTopLevel(keys: set<string>)
    | EndpointsNotArray
    | NotObject(place: Option<nat>)
    | UnknownFields(place: Option<nat>, keys: set<string>)
    | EndpointNotString(place: Option<nat>)
    | Repeated(endpoint: string)
    | UnknownEndpoint(endpoint: string)
    | NothingToSet(place: Option<nat>)
    | PresetNotString(place: Option<nat>)
    | UnknownPreset(preset: string, endpoint: string)
    | BadStatus(place: Option<nat>)
    | BadActive(place: Option<nat>)

  datatype Checked<T> = Good(value: T) | Bad(error: Error)

  const FIELDS := {"endpoint", "preset", "status", "body", "active"}

  const MIN_STATUS := 200
  const MAX_STATUS := 599

  function Find(defs: seq<Endpoint>, id: string): (r: Option<Endpoint>)
    ensures r.Some? ==> r.value in defs && r.value.id == id
    ensures r.None? <==> forall d :: d in defs ==> d.id != id
  {
    if defs == [] then None else if defs[0].id == id then Some(defs[0]) else Find(defs[1..], id)
  }

  function FindPreset(presets: seq<Preset>, id: string): (r: Option<Preset>)
    ensures r.Some? ==> r.value in presets && r.value.id == id
    ensures r.None? <==> forall p :: p in presets ==> p.id != id
  {
    if presets == [] then None else if presets[0].id == id then Some(presets[0]) else FindPreset(presets[1..], id)
  }

  predicate IsStatus(v: Json) {
    v.Num? && v.number == v.number.Floor as real && MIN_STATUS as real <= v.number <= MAX_STATUS as real
  }

  // The checks on one update, in order.
  function CheckItem(defs: seq<Endpoint>, raw: Json, place: Option<nat>, seen: set<string>): Checked<Update> {
    if !raw.Obj? then Bad(NotObject(place))
    else
      var f := raw.fields;
      if f.Keys - FIELDS != {} then Bad(UnknownFields(place, f.Keys - FIELDS))
      else if "endpoint" !in f || !f["endpoint"].Str? then Bad(EndpointNotString(place))
      else
        var id := f["endpoint"].text;
        if id in seen then Bad(Repeated(id))
        else
          match Find(defs, id)
          case None => Bad(UnknownEndpoint(id))
          case Some(def) =>
            if "preset" !in f && "status" !in f && "body" !in f && "active" !in f then Bad(NothingToSet(place))
            else if "preset" in f && !f["preset"].Str? then Bad(PresetNotString(place))
            else if "preset" in f && FindPreset(def.presets, f["preset"].text).None? then
              Bad(UnknownPreset(f["preset"].text, id))
            else if "status" in f && !IsStatus(f["status"]) then Bad(BadStatus(place))
            else if "active" in f && !f["active"].Bool? then Bad(BadActive(place))
            else Good(ToUpdate(raw))
  }

  predicate NamesEndpoint(raw: Json) {
    raw.Obj? && "endpoint" in raw.fields && raw.fields["endpoint"].Str?
  }

  // The typed form of an update; fields of the wrong type are left out.
  function ToUpdate(raw: Json): Update
    requires NamesEndpoint(raw)
  {
    var f := raw.fields;
    Update(f["endpoint"].text,
      if "preset" in f && f["preset"].Str? then Some(f["preset"].text) else None,
      if "status" in f && f["status"].Num? then Some(f["status"].number.Floor) else None,
      if "body" in f then Some(f["body"]) else None,
      if "active" in f && f["active"].Bool? then Some(f["active"].truth) else None)
  }

  function Place(raws: seq<Json>, i: nat): Option<nat> {
    if |raws| > 1 then Some(i) else None
  }

  // The checks on the updates from position `i` on.
  function CheckFrom(defs: seq<Endpoint>, raws: seq<Json>, i: nat, seen: set<string>): Checked<seq<Update>>
    requires i <= |raws|
    decreases |raws| - i
  {
    if i == |raws| then Good([])
    else
      match CheckItem(defs, raws[i], Place(raws, i), seen)
      case Bad(e) => Bad(e)
      case Good(u) =>
        match CheckFrom(defs, raws, i + 1, seen + {u.endpoint})
        case Bad(e) => Bad(e)
        case Good(more) => Good([u] + more)
  }

  function RawUpdates(payload: Json): Checked<seq<Json>> {
    if !payload.Obj? then Bad(BodyNotObject)
    else if "endpoints" !in payload.fields then Good([payload])
    else if payload.fields.Keys != {"endpoints"} then Bad(UnknownTopLevel(payload.fields.Keys - {"endpoints"}))
    else
      var list := payload.fields["endpoints"];
      if !list.Arr? || list.items == [] then Bad(EndpointsNotArray) else Good(list.items)
  }

  function Check(defs: seq<Endpoint>, payload: Json): Checked<seq<Update>> {
    match RawUpdates(payload)
    case Bad(e) => Bad(e)
    case Good(raws) => CheckFrom(defs, raws, 0, {})
  }

  predicate Applicable(defs: seq<Endpoint>, u: Update) {
    var def := Find(defs, u.endpoint);
    && def.Some?
    && (u.preset.Some? ==> FindPreset(def.value.presets, u.preset.value).Some?)
    && (u.status.Some? ==> MIN_STATUS <= u.status.value <= MAX_STATUS)
  }

  function StatusOf(p: Preset): int {
    match p.status case Some(n) => n case None => 200
  }

  // One update: first the preset, which also activates the endpoint, then what overrides it.
  function Revised(defs: seq<Endpoint>, entry: Entry, u: Update): Entry
    requires Applicable(defs, u)
  {
    var e :=
      if u.preset.Some? then
        var p := FindPreset(Find(defs, u.endpoint).value.presets, u.preset.value).value;
        Entry(StatusOf(p), p.body, true)
      else entry;
    var e := if u.status.Some? then e.(status := u.status.value) else e;
    var e := if u.body.Some? then e.(body := u.body.value) else e;
    if u.active.Some? then e.(active := u.active.value) else e
  }

  predicate Fits(defs: seq<Endpoint>, st: State, ups: seq<Update>) {
    forall u :: u in ups ==> Applicable(defs, u) && u.endpoint in st
  }

  function Commit(defs: seq<Endpoint>, st: State, ups: seq<Update>): State
    requires Fits(defs, st, ups)
    decreases |ups|
  {
    if ups == [] then st
    else
      var u := ups[0];
      Commit(defs, st[u.endpoint := Revised(defs, st[u.endpoint], u)], ups[1..])
  }

  // ---------------------------------------------------------------------------------------------
  // Which batches are accepted

  function Name(raw: Json): string
    requires NamesEndpoint(raw)
  {
    raw.fields["endpoint"].text
  }

  // An update as the control interface describes it.
  predicate WellFormed(defs: seq<Endpoint>, raw: Json) {
    && NamesEndpoint(raw)
    && {"endpoint"} < raw.fields.Keys <= {"endpoint", "preset", "status", "body", "active"}
    && (exists d :: d in defs && d.id == Name(raw))
    && ("preset" in raw.fields ==>
          raw.fields["preset"].Str? &&
          (exists p :: p in Find(defs, Name(raw)).value.presets && p.id == raw.fields["preset"].text))
    && ("status" in raw.fields ==>
          var v := raw.fields["status"];
          v.Num? && 200.0 <= v.number <= 599.0 && v.number.Floor as real == v.number)
    && ("active" in raw.fields ==> raw.fields["active"].Bool?)
  }

  lemma ItemAcceptedIff(defs: seq<Endpoint>, raw: Json, place: Option<nat>, seen: set<string>)
    ensures CheckItem(defs, raw, place, seen).Good? <==> WellFormed(defs, raw) && Name(raw) !in seen
    ensures CheckItem(defs, raw, place, seen).Good? ==>
      CheckItem(defs, raw, place, seen).value == ToUpdate(raw) && Applicable(defs, ToUpdate(raw))
  {
    if raw.Obj? {
      var f := raw.fields;
      assert f.Keys - FIELDS == {} <==> f.Keys <= FIELDS;
      if NamesEndpoint(raw) && f.Keys <= FIELDS {
        assert {"endpoint"} < f.Keys <==> "preset" in f || "status" in f || "body" in f || "active" in f;
      }
    }
  }

  predicate AllWellFormed(defs: seq<Endpoint>, raws: seq<Json>) {
    forall raw :: raw in raws ==> WellFormed(defs, raw)
  }

  predicate DistinctNames(raws: seq<Json>)
    requires forall raw :: raw in raws ==> NamesEndpoint(raw)
  {
    forall j, k :: 0 <= j < k < |raws| ==> Name(raws[j]) != Name(raws[k])
  }

  function ToUpdates(raws: seq<Json>): (r: seq<Update>)
    requires forall raw :: raw in raws ==> NamesEndpoint(raw)
    ensures |r| == |raws|
    ensures forall k :: 0 <= k < |r| ==> raws[k] in raws && NamesEndpoint(raws[k]) && r[k] == ToUpdate(raws[k])
  {
    if raws == [] then []
    else
      assert raws[0] in raws && NamesEndpoint(raws[0]);
      [ToUpdate(raws[0])] + ToUpdates(raws[1..])
  }

  lemma {:induction false} CheckFromIff(defs: seq<Endpoint>, raws: seq<Json>, i: nat, seen: set<string>)
    requires i <= |raws|
    ensures var r := CheckFrom(defs, raws, i, seen);
      && (r.Good? <==>
            && AllWellFormed(defs, raws[i..])
            && DistinctNames(raws[i..])
            && (forall raw :: raw in raws[i..] ==> Name(raw) !in seen))
      && (r.Good? ==> r.value == ToUpdates(raws[i..]))
    decreases |raws| - i
  {
    if i < |raws| {
      var head, tail := raws[i], raws[i + 1..];
      assert raws[i..] == [head] + tail;
      ItemAcceptedIff(defs, head, Place(raws, i), seen);
      hide CheckItem, ToUpdate, WellFormed;
      if WellFormed(defs, head) {
        WellFormedNames(defs, head);
        var seen' := seen + {Name(head)};
        CheckFromIff(defs, raws, i + 1, seen');
        ConsNames(defs, head, tail, seen);
      }
    }
  }

  lemma WellFormedNames(defs: seq<Endpoint>, raw: Json)
    requires WellFormed(defs, raw)
    ensures NamesEndpoint(raw) && ToUpdate(raw).endpoint == Name(raw)
  {
  }

  lemma ConsNames(defs: seq<Endpoint>, head: Json, tail: seq<Json>, seen: set<string>)
    requires WellFormed(defs, head)
    ensures AllWellFormed(defs, [head] + tail) <==> AllWellFormed(defs, tail)
    ensures AllWellFormed(defs, tail) ==>
      (DistinctNames([head] + tail) && (forall raw :: raw in [head] + tail ==> Name(raw) !in seen) <==>
       Name(head) !in seen && DistinctNames(tail) && (forall raw :: raw in tail ==> Name(raw) !in seen + {Name(head)}))
    ensures AllWellFormed(defs, tail) ==> ToUpdates([head] + tail) == [ToUpdate(head)] + ToUpdates(tail)
  {
    hide WellFormed, ToUpdate;
    var all := [head] + tail;
    assert forall raw :: raw in all <==> raw == head || raw in tail;
    if AllWellFormed(defs, tail) {
      forall raw | raw in all ensures NamesEndpoint(raw) { WellFormedNames(defs, raw); }
      assert all[1..] == tail;
      if DistinctNames(all) {
        forall j, k | 0 <= j < k < |tail| ensures Name(tail[j]) != Name(tail[k]) {
          assert all[j + 1] == tail[j] && all[k + 1] == tail[k];
        }
        forall raw | raw in tail ensures Name(raw) != Name(head) {
          var k :| 0 <= k < |tail| && tail[k] == raw;
          assert all[0] == head && all[k + 1] == raw;
        }
      }
    }
  }

  // A request is accepted exactly when it is one well-formed update, or nothing but a non-empty array
  // of well-formed updates no two of which name the same endpoint.
  lemma AcceptedIff(defs: seq<Endpoint>, payload: Json)
    ensures Check(defs, payload).Good? <==>
      && payload.Obj?
      && if "endpoints" !in payload.fields then WellFormed(defs, payload)
         else
           && payload.fields.Keys == {"endpoints"} && payload.fields["endpoints"].Arr?
           && (var raws := payload.fields["endpoints"].items;
               raws != [] && AllWellFormed(defs, raws) && DistinctNames(raws))
    ensures Check(defs, payload).Good? ==> var raws := RawUpdates(payload);
      && raws.Good?
      && raws.value == (if "endpoints" in payload.fields then payload.fields["endpoints"].items else [payload])
      && AllWellFormed(defs, raws.value) && DistinctNames(raws.value)
      && Check(defs, payload).value == ToUpdates(raws.value)
  {
    var raws := RawUpdates(payload);
    if raws.Good? {
      CheckFromIff(defs, raws.value, 0, {});
      assert raws.value[0..] == raws.value;
      assert payload.Obj? && "endpoints" !in payload.fields ==> raws.value == [payload];
      hide WellFormed, CheckItem, ToUpdate;
    }
  }

  // What an error says of the update it was raised for, `seen` being the names before it.
  ghost predicate Explains(e: Error, defs: seq<Endpoint>, raw: Json, place: Option<nat>, seen: set<string>) {
    match e
    case NotObject(at) => at == place && !raw.Obj?
    case UnknownFields(at, keys) =>
      at == place && raw.Obj? && keys != {} &&
      keys == raw.fields.Keys - {"endpoint", "preset", "status", "body", "active"}
    case EndpointNotString(at) => at == place && raw.Obj? && !NamesEndpoint(raw)
    case Repeated(id) => NamesEndpoint(raw) && id == Name(raw) && id in seen
    case UnknownEndpoint(id) => NamesEndpoint(raw) && id == Name(raw) && forall d :: d in defs ==> d.id != id
    case NothingToSet(at) => at == place && raw.Obj? && raw.fields.Keys == {"endpoint"}
    case PresetNotString(at) => at == place && raw.Obj? && "preset" in raw.fields && !raw.fields["preset"].Str?
    case UnknownPreset(preset, id) =>
      && NamesEndpoint(raw) && id == Name(raw) && "preset" in raw.fields && raw.fields["preset"] == Str(preset)
      && Find(defs, id).Some? && forall p :: p in Find(defs, id).value.presets ==> p.id != preset
    case BadStatus(at) => at == place && raw.Obj? && "status" in raw.fields && !IsStatus(raw.fields["status"])
    case BadActive(at) => at == place && raw.Obj? && "active" in raw.fields && !raw.fields["active"].Bool?
    case _ => false
  }

  lemma ItemErrorExplains(defs: seq<Endpoint>, raw: Json, place: Option<nat>, seen: set<string>)
    requires CheckItem(defs, raw, place, seen).Bad?
    ensures Explains(CheckItem(defs, raw, place, seen).error, defs, raw, place, seen)
  {
    if raw.Obj? {
      var f := raw.fields;
      var nothing := "preset" !in f && "status" !in f && "body" !in f && "active" !in f;
      if f.Keys - FIELDS == {} && "endpoint" in f && nothing {
        assert f.Keys <= FIELDS;
        assert f.Keys == {"endpoint"};
      }
    }
  }

  // The names of the updates before position `i`.
  function NamesBefore(raws: seq<Json>, i: nat): set<string>
    requires i <= |raws|
  {
    set k | 0 <= k < i && NamesEndpoint(raws[k]) :: Name(raws[k])
  }

  // The error is that of the update at `k`, and those from `i` up to it are well formed.
  ghost predicate ErrorAt(e: Error, defs: seq<Endpoint>, raws: seq<Json>, i: nat, k: nat) {
    && i <= k < |raws|
    && Explains(e, defs, raws[k], if |raws| > 1 then Some(k) else None, NamesBefore(raws, k))
    && forall j :: i <= j < k ==> WellFormed(defs, raws[j])
  }

  lemma {:induction false} FirstError(defs: seq<Endpoint>, raws: seq<Json>, i: nat) returns (k: nat)
    requires i <= |raws| && CheckFrom(defs, raws, i, NamesBefore(raws, i)).Bad?
    ensures ErrorAt(CheckFrom(defs, raws, i, NamesBefore(raws, i)).error, defs, raws, i, k)
    decreases |raws| - i
  {
    var seen := NamesBefore(raws, i);
    CheckStep(defs, raws, i, seen);
    ItemAcceptedIff(defs, raws[i], Place(raws, i), seen);
    hide CheckItem, CheckFrom, WellFormed, Explains, ToUpdate, NamesBefore;
    if CheckItem(defs, raws[i], Place(raws, i), seen).Bad? {
      k := i;
      ItemErrorExplains(defs, raws[i], Place(raws, i), seen);
    } else {
      WellFormedNames(defs, raws[i]);
      NamesBeforeNext(raws, i);
      k := FirstError(defs, raws, i + 1);
    }
  }

  lemma NamesBeforeNext(raws: seq<Json>, i: nat)
    requires i < |raws| && NamesEndpoint(raws[i])
    ensures NamesBefore(raws, i + 1) == NamesBefore(raws, i) + {Name(raws[i])}
  {
  }

  lemma ErrorIsOfUpdate(e: Error, defs: seq<Endpoint>, raws: seq<Json>, i: nat, k: nat)
    requires ErrorAt(e, defs, raws, i, k)
    ensures !e.BodyNotObject? && !e.UnknownTopLevel? && !e.EndpointsNotArray?
  {
  }

  // A rejection tells the truth: about the request as a whole, or about the first update that is not
  // acceptable, by its position if there are several.
  lemma RejectionExplains(defs: seq<Endpoint>, payload: Json)
    requires Check(defs, payload).Bad?
    ensures match Check(defs, payload).error
      case BodyNotObject => !payload.Obj?
      case UnknownTopLevel(keys) =>
        payload.Obj? && "endpoints" in payload.fields && keys == payload.fields.Keys - {"endpoints"} != {}
      case EndpointsNotArray =>
        && payload.Obj? && payload.fields.Keys == {"endpoints"}
        && (payload.fields["endpoints"].Arr? ==> payload.fields["endpoints"].items == [])
      case e =>
        && RawUpdates(payload).Good?
        && (var raws := RawUpdates(payload).value;
            exists k :: ErrorAt(e, defs, raws, 0, k))
  {
    var raws := RawUpdates(payload);
    if raws.Good? {
      assert NamesBefore(raws.value, 0) == {};
      var k := FirstError(defs, raws.value, 0);
      ErrorIsOfUpdate(CheckFrom(defs, raws.value, 0, {}).error, defs, raws.value, 0, k);
      hide CheckFrom, WellFormed, NamesBefore, NamesEndpoint, ErrorAt;
    } else if payload.Obj? && payload.fields.Keys != {"endpoints"} {
      assert payload.fields.Keys - {"endpoints"} != {};
    }
  }

  // ---------------------------------------------------------------------------------------------
  // What an accepted batch does

  predicate DistinctTargets(ups: seq<Update>) {
    forall j, k :: 0 <= j < k < |ups| ==> ups[j].endpoint != ups[k].endpoint
  }

  lemma FitsAfter(defs: seq<Endpoint>, st: State, ups: seq<Update>, entry: Entry)
    requires Fits(defs, st, ups) && ups != []
    ensures ups[0] in ups && Fits(defs, st[ups[0].endpoint := entry], ups[1..])
  {
  }

  lemma {:induction false} CommitLeaves(defs: seq<Endpoint>, st: State, ups: seq<Update>, id: string)
    requires Fits(defs, st, ups) && id in st && (forall u :: u in ups ==> u.endpoint != id)
    ensures id in Commit(defs, st, ups) && Commit(defs, st, ups)[id] == st[id]
    decreases |ups|
  {
    if ups == [] {
    } else {
      var entry := Revised(defs, st[ups[0].endpoint], ups[0]);
      FitsAfter(defs, st, ups, entry);
      CommitLeaves(defs, st[ups[0].endpoint := entry], ups[1..], id);
      hide Revised, Applicable;
    }
  }

  lemma {:induction false} CommitKeepsKeys(defs: seq<Endpoint>, st: State, ups: seq<Update>)
    requires Fits(defs, st, ups)
    ensures Commit(defs, st, ups).Keys == st.Keys
    decreases |ups|
  {
    if ups == [] {
    } else {
      var entry := Revised(defs, st[ups[0].endpoint], ups[0]);
      FitsAfter(defs, st, ups, entry);
      CommitKeepsKeys(defs, st[ups[0].endpoint := entry], ups[1..]);
      hide Revised, Applicable;
    }
  }

  lemma TailTargets(ups: seq<Update>)
    requires DistinctTargets(ups) && ups != []
    ensures DistinctTargets(ups[1..])
    ensures forall u :: u in ups[1..] ==> u.endpoint != ups[0].endpoint
  {
    var tail := ups[1..];
    assert forall k :: 0 <= k < |tail| ==> tail[k] == ups[k + 1];
  }

  lemma {:induction false} CommitRevises(defs: seq<Endpoint>, st: State, ups: seq<Update>, k: nat)
    requires Fits(defs, st, ups) && DistinctTargets(ups) && k < |ups| && ups[k] in ups
    ensures ups[k].endpoint in Commit(defs, st, ups)
    ensures Commit(defs, st, ups)[ups[k].endpoint] == Revised(defs, st[ups[k].endpoint], ups[k])
    decreases |ups|
  {
    var id := ups[0].endpoint;
    var entry := Revised(defs, st[id], ups[0]);
    FitsAfter(defs, st, ups, entry);
    TailTargets(ups);
    if k == 0 {
      CommitLeaves(defs, st[id := entry], ups[1..], id);
    } else {
      assert ups[1..][k - 1] == ups[k] && ups[k] in ups[1..];
      CommitRevises(defs, st[id := entry], ups[1..], k - 1);
    }
    hide Revised, Applicable;
  }

  // Committing keeps the keys, leaves unnamed endpoints alone and revises each named one from what
  // it was before the batch.
  lemma CommitPointwise(defs: seq<Endpoint>, st: State, ups: seq<Update>)
    requires Fits(defs, st, ups) && DistinctTargets(ups)
    ensures var after := Commit(defs, st, ups);
      && after.Keys == st.Keys
      && (forall id :: id in st && (forall u :: u in ups ==> u.endpoint != id) ==> after[id] == st[id])
      && (forall u :: u in ups ==> u.endpoint in after && after[u.endpoint] == Revised(defs, st[u.endpoint], u))
  {
    hide Revised, Applicable, Commit;
    CommitKeepsKeys(defs, st, ups);
    forall id | id in st && (forall u :: u in ups ==> u.endpoint != id)
      ensures Commit(defs, st, ups)[id] == st[id]
    {
      CommitLeaves(defs, st, ups, id);
    }
    forall u | u in ups
      ensures u.endpoint in st && Applicable(defs, u)
      ensures Commit(defs, st, ups)[u.endpoint] == Revised(defs, st[u.endpoint], u)
    {
      var k :| 0 <= k < |ups| && ups[k] == u;
      CommitRevises(defs, st, ups, k);
    }
  }

  // What a revision means: each part comes from the update itself, else from its preset, else it
  // stays; naming a preset activates the endpoint unless the update says otherwise.
  lemma RevisedParts(defs: seq<Endpoint>, entry: Entry, u: Update)
    requires Applicable(defs, u)
    ensures var r := Revised(defs, entry, u);
      && (u.status.Some? ==> r.status == u.status.value)
      && (u.body.Some? ==> r.body == u.body.value)
      && (u.active.Some? ==> r.active == u.active.value)
      && (u.preset.None? && u.status.None? ==> r.status == entry.status)
      && (u.preset.None? && u.body.None? ==> r.body == entry.body)
      && (u.preset.None? && u.active.None? ==> r.active == entry.active)
      && (u.preset.Some? ==>
           exists d, p :: d in defs && d.id == u.endpoint && p in d.presets && p.id == u.preset.value
             && (u.status.None? ==> r.status == match p.status case Some(n) => n case None => 200)
             && (u.body.None? ==> r.body == p.body) && (u.active.None? ==> r.active))
  {
    if u.preset.Some? {
      var d := Find(defs, u.endpoint).value;
      var p := FindPreset(d.presets, u.preset.value).value;
      assert d in defs && p in d.presets;
    }
  }

  // ---------------------------------------------------------------------------------------------
  // Requests

  datatype Reply = Accepted | Rejected(error: Error)

  predicate Complete(defs: seq<Endpoint>, st: State) {
    st.Keys == set d | d in defs :: d.id
  }

  lemma AcceptedFits(defs: seq<Endpoint>, st: State, payload: Json)
    requires Complete(defs, st) && Check(defs, payload).Good?
    ensures Fits(defs, st, Check(defs, payload).value) && DistinctTargets(Check(defs, payload).value)
  {
    AcceptedIff(defs, payload);
    var raws := RawUpdates(payload).value;
    var ups := Check(defs, payload).value;
    forall k | 0 <= k < |ups| ensures ups[k].endpoint == Name(raws[k]) && Applicable(defs, ups[k]) {
      assert raws[k] in raws;
      WellFormedNames(defs, raws[k]);
      ItemAcceptedIff(defs, raws[k], None, {});
    }
    hide WellFormed, CheckItem, ToUpdate, Check, RawUpdates;
  }

  function Apply(defs: seq<Endpoint>, st: State, payload: Json): (State, Reply)
    requires Complete(defs, st)
  {
    match Check(defs, payload)
    case Bad(e) => (st, Rejected(e))
    case Good(ups) =>
      AcceptedFits(defs, st, payload);
      (Commit(defs, st, ups), Accepted)
  }

  // An accepted update, from its JSON to the new state: what it sets is as given, a preset gives the
  // rest and activates, and without a preset the rest stays.
  lemma AppliedFields(defs: seq<Endpoint>, st: State, payload: Json, raw: Json)
    requires Complete(defs, st) && Apply(defs, st, payload).1.Accepted?
    requires RawUpdates(payload).Good? && raw in RawUpdates(payload).value
    ensures NamesEndpoint(raw) && Name(raw) in st && Name(raw) in Apply(defs, st, payload).0
    ensures var f, before, after := raw.fields, st[Name(raw)], Apply(defs, st, payload).0[Name(raw)];
      && ("status" in f ==> f["status"] == Num(after.status as real))
      && ("body" in f ==> f["body"] == after.body)
      && ("active" in f ==> f["active"] == Bool(after.active))
      && ("preset" !in f ==>
            && ("status" !in f ==> after.status == before.status)
            && ("body" !in f ==> after.body == before.body)
            && ("active" !in f ==> after.active == before.active))
      && ("preset" in f ==>
            exists d, p :: d in defs && d.id == Name(raw) && p in d.presets && f["preset"] == Str(p.id)
              && ("status" !in f ==> after.status == match p.status case Some(n) => n case None => 200)
              && ("body" !in f ==> after.body == p.body)
              && ("active" !in f ==> after.active))
  {
    AcceptedIff(defs, payload);
    AcceptedFits(defs, st, payload);
    var raws, ups := RawUpdates(payload).value, Check(defs, payload).value;
    var k :| 0 <= k < |raws| && raws[k] == raw;
    var u := ups[k];
    assert u == ToUpdate(raw) && u in ups && WellFormed(defs, raw);
    CommitPointwise(defs, st, ups);
    RevisedParts(defs, st[u.endpoint], u);
    UpdateParts(defs, raw);
    hide Check, Revised, Applicable, WellFormed, ToUpdate, RawUpdates, Commit;
  }

  // The typed form of a well-formed update leaves nothing out.
  lemma UpdateParts(defs: seq<Endpoint>, raw: Json)
    requires WellFormed(defs, raw)
    ensures NamesEndpoint(raw)
    ensures var f, u := raw.fields, ToUpdate(raw);
      && u.endpoint == Name(raw)
      && (if "preset" in f then u.preset.Some? && f["preset"] == Str(u.preset.value) else u.preset.None?)
      && (if "status" in f then u.status.Some? && f["status"] == Num(u.status.value as real) else u.status.None?)
      && (if "body" in f then u.body == Some(f["body"]) else u.body.None?)
      && (if "active" in f then u.active.Some? && f["active"] == Bool(u.active.value) else u.active.None?)
  {
  }

  // Endpoints that no update names keep their state.
  lemma UnnamedStay(defs: seq<Endpoint>, st: State, payload: Json, id: string)
    requires Complete(defs, st) && id in st
    requires RawUpdates(payload).Good? ==>
      forall raw :: raw in RawUpdates(payload).value && NamesEndpoint(raw) ==> Name(raw) != id
    ensures id in Apply(defs, st, payload).0 && Apply(defs, st, payload).0[id] == st[id]
  {
    AcceptedIff(defs, payload);
    if Check(defs, payload).Good? {
      AcceptedFits(defs, st, payload);
      var raws, ups := RawUpdates(payload).value, Check(defs, payload).value;
      forall u | u in ups ensures u.endpoint != id {
        var k :| 0 <= k < |ups| && ups[k] == u;
        assert raws[k] in raws;
        UpdateParts(defs, raws[k]);
      }
      CommitPointwise(defs, st, ups);
      hide Check, Revised, Applicable, WellFormed, ToUpdate, RawUpdates, Commit;
    }
  }

  function ResetEntry(d: Endpoint): Entry {
    if d.presets == [] then Entry(200, Obj(map[]), d.mockedByDefault)
    else Entry(StatusOf(d.presets[0]), d.presets[0].body, d.mockedByDefault)
  }

  function ResetFrom(defs: seq<Endpoint>, st: State): State
    decreases |defs|
  {
    if defs == [] then st
    else
      ResetFrom(defs[1..], st[defs[0].id := ResetEntry(defs[0])])
  }

  function Initial(defs: seq<Endpoint>): State {
    ResetFrom(defs, map[])
  }

  predicate DistinctIds(defs: seq<Endpoint>) {
    forall j, k :: 0 <= j < k < |defs| ==> defs[j].id != defs[k].id
  }

  lemma {:induction false} ResetLeaves(defs: seq<Endpoint>, st: State, id: string)
    requires id in st && forall d :: d in defs ==> d.id != id
    ensures id in ResetFrom(defs, st) && ResetFrom(defs, st)[id] == st[id]
    decreases |defs|
  {
    if defs == [] {
    } else {
      var d := defs[0];
      assert d in defs && forall e :: e in defs[1..] ==> e in defs;
      ResetLeaves(defs[1..], st[d.id := ResetEntry(d)], id);
    }
  }

  // A reset puts every endpoint at its first preset, or at 200 with an empty object when it has
  // none, and mocks just those marked so.
  lemma {:induction false} ResetIsDefault(defs: seq<Endpoint>, st: State, k: nat)
    requires DistinctIds(defs) && k < |defs|
    ensures var after, d := ResetFrom(defs, st), defs[k];
      && d.id in after && after[d.id].active == d.mockedByDefault
      && (d.presets == [] ==> after[d.id].status == 200 && after[d.id].body == Obj(map[]))
      && (d.presets != [] ==>
            && after[d.id].status == (match d.presets[0].status case Some(n) => n case None => 200)
            && after[d.id].body == d.presets[0].body)
    decreases |defs|
  {
    var d, tail := defs[0], defs[1..];
    assert forall j :: 0 <= j < |tail| ==> tail[j] == defs[j + 1];
    if k == 0 {
      assert forall e :: e in tail ==> exists j :: 0 < j < |defs| && defs[j] == e;
      ResetLeaves(tail, st[d.id := ResetEntry(d)], d.id);
    } else {
      ResetIsDefault(tail, st[d.id := ResetEntry(d)], k - 1);
    }
  }

  datatype Request = Post(payload: Json) | Reset

  function Serve(defs: seq<Endpoint>, st: State, r: Request): State
    requires Complete(defs, st)
  {
    match r
    case Post(payload) => Apply(defs, st, payload).0
    case Reset => Initial(defs)
  }

  // ---------------------------------------------------------------------------------------------
  // Invariant of every run

  predicate InRange(st: State) {
    forall id :: id in st ==> MIN_STATUS <= st[id].status <= MAX_STATUS
  }

  // What the endpoint table promises.
  predicate PresetsInRange(defs: seq<Endpoint>) {
    forall d, p :: d in defs && p in d.presets ==> MIN_STATUS <= StatusOf(p) <= MAX_STATUS
  }

  lemma {:induction false} ResetIsComplete(defs: seq<Endpoint>, st: State)
    requires PresetsInRange(defs) && InRange(st)
    ensures InRange(ResetFrom(defs, st))
    ensures ResetFrom(defs, st).Keys == st.Keys + set d | d in defs :: d.id
    decreases |defs|
  {
    if defs == [] {
    } else {
      var d, tail := defs[0], defs[1..];
      assert defs == [d] + tail;
      assert d in defs && (d.presets != [] ==> d.presets[0] in d.presets);
      ResetIsComplete(tail, st[d.id := ResetEntry(d)]);
      IdsOfCons(d, tail);
    }
  }

  lemma IdsOfCons(d: Endpoint, tail: seq<Endpoint>)
    ensures (set e | e in [d] + tail :: e.id) == {d.id} + set e | e in tail :: e.id
  {
    forall e | e in tail ensures e.id in set e | e in [d] + tail :: e.id { assert e in [d] + tail; }
    assert d in [d] + tail;
  }

  lemma RevisedInRange(defs: seq<Endpoint>, entry: Entry, u: Update)
    requires PresetsInRange(defs) && Applicable(defs, u) && MIN_STATUS <= entry.status <= MAX_STATUS
    ensures MIN_STATUS <= Revised(defs, entry, u).status <= MAX_STATUS
  {
    RevisedParts(defs, entry, u);
  }

  lemma CommitInRange(defs: seq<Endpoint>, st: State, ups: seq<Update>)
    requires PresetsInRange(defs) && Fits(defs, st, ups) && DistinctTargets(ups) && InRange(st)
    ensures Commit(defs, st, ups).Keys == st.Keys && InRange(Commit(defs, st, ups))
  {
    CommitPointwise(defs, st, ups);
    forall u | u in ups
      ensures u.endpoint in st && Applicable(defs, u)
      ensures MIN_STATUS <= Revised(defs, st[u.endpoint], u).status <= MAX_STATUS
    {
      RevisedInRange(defs, st[u.endpoint], u);
    }
    hide Revised, Applicable, Commit, PresetsInRange;
  }

  lemma ServeKeepsInv(defs: seq<Endpoint>, st: State, r: Request)
    requires PresetsInRange(defs) && Complete(defs, st) && InRange(st)
    ensures Complete(defs, Serve(defs, st, r)) && InRange(Serve(defs, st, r))
  {
    match r
    case Reset => ResetIsComplete(defs, map[]);
    case Post(payload) =>
      if Check(defs, payload).Good? {
        AcceptedFits(defs, st, payload);
        CommitInRange(defs, st, Check(defs, payload).value);
        hide Check, Commit, InRange;
      }
  }

  function Run(defs: seq<Endpoint>, st: State, rs: seq<Request>): State
    requires PresetsInRange(defs) && Complete(defs, st) && InRange(st)
    decreases |rs|
  {
    if rs == [] then st
    else
      ServeKeepsInv(defs, st, rs[0]);
      Run(defs, Serve(defs, st, rs[0]), rs[1..])
  }

  // In every state a server reaches, the keys are the endpoints of its table and every status is
  // from 200 to 599.
  lemma ReachableInv(defs: seq<Endpoint>, rs: seq<Request>)
    requires PresetsInRange(defs)
    ensures Complete(defs, Initial(defs)) && InRange(Initial(defs))
    ensures var st := Run(defs, Initial(defs), rs);
      && (forall id :: id in st <==> exists d :: d in defs && d.id == id)
      && (forall id :: id in st ==> 200 <= st[id].status <= 599)
  {
    ResetIsComplete(defs, map[]);
    RunKeepsInv(defs, Initial(defs), rs);
    hide Run, Initial, PresetsInRange;
  }

  lemma {:induction false} RunKeepsInv(defs: seq<Endpoint>, st: State, rs: seq<Request>)
    requires PresetsInRange(defs) && Complete(defs, st) && InRange(st)
    ensures Complete(defs, Run(defs, st, rs)) && InRange(Run(defs, st, rs))
    decreases |rs|
  {
    if rs == [] {
    } else {
      ServeKeepsInv(defs, st, rs[0]);
      RunKeepsInv(defs, Serve(defs, st, rs[0]), rs[1..]);
      hide Serve, PresetsInRange;
    }
  }

  // ---------------------------------------------------------------------------------------------
  // Order does not matter

  lemma {:induction false} TwoCopies<T>(s: seq<T>, j: nat, k: nat)
    requires j < k < |s| && s[j] == s[k]
    ensures multiset(s)[s[j]] >= 2
  {
    assert s == s[..k] + s[k..];
    assert s[..k][j] == s[j] && s[k..][0] == s[j];
    assert s[j] in multiset(s[..k]) && s[j] in multiset(s[k..]);
    assert multiset(s) == multiset(s[..k]) + multiset(s[k..]);
  }

  lemma {:induction false} OneCopy<T>(s: seq<T>, x: T)
    requires forall j, k :: 0 <= j < k < |s| ==> s[j] != s[k]
    ensures multiset(s)[x] <= 1
    decreases |s|
  {
    if s == [] {
    } else {
      var tail := s[1..];
      assert s == [s[0]] + tail;
      assert forall j, k :: 0 <= j < k < |tail| ==> tail[j] == s[j + 1] && tail[k] == s[k + 1];
      OneCopy(tail, x);
      assert s[0] !in tail;
      assert multiset(s) == multiset{s[0]} + multiset(tail);
    }
  }

  lemma SameItems<T>(xs: seq<T>, ys: seq<T>, x: T)
    requires multiset(xs) == multiset(ys)
    ensures x in xs <==> x in ys
  {
    assert x in xs <==> x in multiset(xs);
    assert x in ys <==> x in multiset(ys);
  }

  lemma DistinctAnyOrder(defs: seq<Endpoint>, xs: seq<Json>, ys: seq<Json>)
    requires multiset(xs) == multiset(ys)
    requires AllWellFormed(defs, xs) && DistinctNames(xs)
    ensures AllWellFormed(defs, ys) && DistinctNames(ys)
  {
    hide WellFormed;
    forall y | y in ys ensures WellFormed(defs, y) && NamesEndpoint(y) {
      SameItems(xs, ys, y);
      WellFormedNames(defs, y);
    }
    forall x | x in xs ensures NamesEndpoint(x) { WellFormedNames(defs, x); }
    forall j, k | 0 <= j < k < |ys| ensures Name(ys[j]) != Name(ys[k]) {
      if Name(ys[j]) == Name(ys[k]) {
        SameItems(xs, ys, ys[j]);
        SameItems(xs, ys, ys[k]);
        NamesDiffer(xs, ys[j], ys[k]);
        TwoCopies(ys, j, k);
        OneCopy(xs, ys[j]);
      }
    }
  }

  // Items with the same name among distinctly named ones are the same item.
  lemma NamesDiffer(xs: seq<Json>, a: Json, b: Json)
    requires forall x :: x in xs ==> NamesEndpoint(x)
    requires DistinctNames(xs) && a in xs && b in xs && Name(a) == Name(b)
    ensures a == b && forall j, k :: 0 <= j < k < |xs| ==> xs[j] != xs[k]
  {
    var j :| 0 <= j < |xs| && xs[j] == a;
    var k :| 0 <= k < |xs| && xs[k] == b;
    assert j == k;
  }

  function Batch(raws: seq<Json>): Json {
    Obj(map["endpoints" := Arr(raws)])
  }

  lemma BatchUpdates(raws: seq<Json>)
    requires raws != []
    ensures RawUpdates(Batch(raws)) == Good(raws)
  {
    assert Batch(raws).fields.Keys == {"endpoints"};
  }

  lemma UpdatesMatch(xs: seq<Json>, ys: seq<Json>, u: Update)
    requires multiset(xs) == multiset(ys)
    requires forall x :: x in xs ==> NamesEndpoint(x)
    requires forall y :: y in ys ==> NamesEndpoint(y)
    requires u in ToUpdates(xs)
    ensures u in ToUpdates(ys)
  {
    hide ToUpdate;
    var k :| 0 <= k < |xs| && ToUpdates(xs)[k] == u;
    SameItems(xs, ys, xs[k]);
    var j :| 0 <= j < |ys| && ys[j] == xs[k];
    assert ToUpdates(ys)[j] == u;
  }

  // An accepted batch has the same outcome in any order; so a rejected one is rejected in any order.
  lemma OrderDoesNotMatter(defs: seq<Endpoint>, st: State, xs: seq<Json>, ys: seq<Json>)
    requires Complete(defs, st) && xs != [] && multiset(xs) == multiset(ys)
    requires Apply(defs, st, Batch(xs)).1.Accepted?
    ensures Apply(defs, st, Batch(ys)) == Apply(defs, st, Batch(xs))
  {
    assert ys != [] by { SameItems(xs, ys, xs[0]); }
    BatchUpdates(xs);
    BatchUpdates(ys);
    AcceptedIff(defs, Batch(xs));
    DistinctAnyOrder(defs, xs, ys);
    AcceptedIff(defs, Batch(ys));
    AcceptedFits(defs, st, Batch(xs));
    AcceptedFits(defs, st, Batch(ys));
    SameCommit(defs, st, ToUpdates(xs), ToUpdates(ys)) by {
      forall x | x in xs ensures NamesEndpoint(x) { WellFormedNames(defs, x); }
      forall y | y in ys ensures NamesEndpoint(y) { WellFormedNames(defs, y); }
      forall u ensures u in ToUpdates(xs) <==> u in ToUpdates(ys) {
        if u in ToUpdates(xs) { UpdatesMatch(xs, ys, u); }
        if u in ToUpdates(ys) { UpdatesMatch(ys, xs, u); }
      }
    }
  }

  lemma SameCommit(defs: seq<Endpoint>, st: State, us: seq<Update>, vs: seq<Update>)
    requires Fits(defs, st, us) && Fits(defs, st, vs) && DistinctTargets(us) && DistinctTargets(vs)
    requires forall u :: u in us <==> u in vs
    ensures Commit(defs, st, us) == Commit(defs, st, vs)
  {
    CommitPointwise(defs, st, us);
    CommitPointwise(defs, st, vs);
    hide Revised, Applicable, Commit;
    forall id | id in st ensures Commit(defs, st, us)[id] == Commit(defs, st, vs)[id] {
      if u :| u in us && u.endpoint == id {
        assert u in vs;
      }
    }
  }

  // ---------------------------------------------------------------------------------------------
  // A batch is its updates posted one by one

  function Posts(raws: seq<Json>): seq<Request> {
    if raws == [] then [] else [Post(raws[0])] + Posts(raws[1..])
  }

  lemma CommitOne(defs: seq<Endpoint>, st: State, ups: seq<Update>)
    requires Fits(defs, st, ups) && |ups| == 1
    ensures ups[0] in ups
    ensures Commit(defs, st, ups) == st[ups[0].endpoint := Revised(defs, st[ups[0].endpoint], ups[0])]
  {
    assert ups[1..] == [];
    hide Revised, Applicable;
  }

  lemma SinglePost(defs: seq<Endpoint>, st: State, raw: Json)
    requires Complete(defs, st) && WellFormed(defs, raw)
    ensures var u := ToUpdate(raw);
      && Applicable(defs, u) && u.endpoint in st
      && Serve(defs, st, Post(raw)) == st[u.endpoint := Revised(defs, st[u.endpoint], u)]
  {
    assert RawUpdates(raw) == Good([raw]);
    AcceptedIff(defs, raw);
    assert AllWellFormed(defs, [raw]);
    AcceptedFits(defs, st, raw);
    var ups := Check(defs, raw).value;
    assert ups == [ToUpdate(raw)];
    CommitOne(defs, st, ups);
    hide WellFormed, Check, ToUpdate, Revised, Applicable;
  }

  lemma {:induction false} CommitIsRun(defs: seq<Endpoint>, st: State, raws: seq<Json>)
    requires PresetsInRange(defs) && Complete(defs, st) && InRange(st)
    requires AllWellFormed(defs, raws) && Fits(defs, st, ToUpdates(raws))
    ensures Commit(defs, st, ToUpdates(raws)) == Run(defs, st, Posts(raws))
    decreases |raws|
  {
    if raws == [] {
    } else {
      var ups := ToUpdates(raws);
      assert ups == [ToUpdate(raws[0])] + ToUpdates(raws[1..]) && ups[1..] == ToUpdates(raws[1..]);
      SinglePost(defs, st, raws[0]);
      FitsAfter(defs, st, ups, Revised(defs, st[ups[0].endpoint], ups[0]));
      ServeKeepsInv(defs, st, Post(raws[0]));
      var posts := Posts(raws);
      assert posts == [Post(raws[0])] + Posts(raws[1..]) && posts[1..] == Posts(raws[1..]);
      hide WellFormed, Serve, ToUpdate, Revised, Applicable, PresetsInRange, InRange, Complete;
      CommitIsRun(defs, st[ups[0].endpoint := Revised(defs, st[ups[0].endpoint], ups[0])], raws[1..]);
    }
  }

  // Posting an accepted batch is posting its updates one after the other.
  lemma BatchIsSequence(defs: seq<Endpoint>, st: State, raws: seq<Json>)
    requires PresetsInRange(defs) && Complete(defs, st) && InRange(st) && raws != []
    requires Apply(defs, st, Batch(raws)).1.Accepted?
    ensures Apply(defs, st, Batch(raws)).0 == Run(defs, st, Posts(raws))
  {
    BatchUpdates(raws);
    AcceptedIff(defs, Batch(raws));
    AcceptedFits(defs, st, Batch(raws));
    CommitIsRun(defs, st, raws);
  }

  // ---------------------------------------------------------------------------------------------
  // The server's state

  class PolicyState {
    const defs: seq<Endpoint>
    var state: State

    constructor (defs: seq<Endpoint>)
      ensures this.defs == defs && state == Initial(defs)
    {
      this.defs := defs;
      new;
      ResetEndpointState();
    }

    method ResetEndpointState()
      modifies this
      ensures state == Initial(defs)
    {
      state := map[];
      for i := 0 to |defs|
        invariant ResetFrom(defs[i..], state) == Initial(defs)
      {
        var d := defs[i];
        assert defs[i..][1..] == defs[i + 1..];
        var status, body := 200, Obj(map[]);
        if d.presets != [] {
          status, body := StatusOf(d.presets[0]), d.presets[0].body;
        }
        state := state[d.id := Entry(status, body, d.mockedByDefault)];
      }
    }

    method CheckUpdates(payload: Json) returns (r: Checked<seq<Update>>)
      ensures r == Check(defs, payload)
    {
      hide *;
      CheckStart(defs, payload);
      var raws := RawUpdates(payload);
      if raws.Bad? { return Bad(raws.error); }
      var updates, seen := [], {};
      PrecededByNone(CheckFrom(defs, raws.value, 0, seen));
      for i := 0 to |raws.value|
        invariant Check(defs, payload) == Preceded(updates, CheckFrom(defs, raws.value, i, seen))
      {
        CheckStep(defs, raws.value, i, seen);
        var item := CheckItem(defs, raws.value[i], Place(raws.value, i), seen);
        if item.Bad? {
          PrecededError(updates, item.error);
          return Bad(item.error);
        }
        PrecededTwice(updates, item.value, CheckFrom(defs, raws.value, i + 1, seen + {item.value.endpoint}));
        seen := seen + {item.value.endpoint};
        updates := updates + [item.value];
      }
      CheckDone(defs, raws.value, seen, updates);
      r := Good(updates);
    }

    // Builds the next state aside; `state` is not touched before it is complete.
    method ApplyEndpointUpdates(payload: Json) returns (reply: Reply)
      requires Complete(defs, state)
      modifies this
      ensures (state, reply) == Apply(defs, old(state), payload)
      ensures reply.Rejected? ==> state == old(state)
    {
      hide Check;
      var checked := CheckUpdates(payload);
      if checked.Bad? { return Rejected(checked.error); }
      var updates := checked.value;
      AcceptedFits(defs, state, payload);
      CommitKeepsKeys(defs, state, updates);
      var nextState := state;
      for i := 0 to |updates|
        invariant state == old(state)
        invariant Fits(defs, nextState, updates[i..])
        invariant Commit(defs, nextState, updates[i..]) == Commit(defs, state, updates)
      {
        var u := updates[i];
        assert updates[i..][0] == u && updates[i..][1..] == updates[i + 1..];
        FitsAfter(defs, nextState, updates[i..], Revised(defs, nextState[u.endpoint], u));
        nextState := nextState[u.endpoint := Revised(defs, nextState[u.endpoint], u)];
      }
      assert state + nextState == nextState;
      state := state + nextState;
      reply := Accepted;
    }
  }

  lemma CheckStart(defs: seq<Endpoint>, payload: Json)
    ensures var raws := RawUpdates(payload);
      Check(defs, payload) == if raws.Bad? then Bad(raws.error) else CheckFrom(defs, raws.value, 0, {})
  {
    hide CheckFrom, RawUpdates;
  }

  lemma CheckDone(defs: seq<Endpoint>, raws: seq<Json>, seen: set<string>, done: seq<Update>)
    ensures Preceded(done, CheckFrom(defs, raws, |raws|, seen)) == Good(done)
  {
    assert done + [] == done;
  }

  lemma PrecededError(done: seq<Update>, e: Error)
    ensures Preceded(done, Bad(e)) == Bad(e)
  {
  }

  lemma CheckStep(defs: seq<Endpoint>, raws: seq<Json>, i: nat, seen: set<string>)
    requires i < |raws|
    ensures var item := CheckItem(defs, raws[i], Place(raws, i), seen);
      CheckFrom(defs, raws, i, seen) ==
        if item.Bad? then Bad(item.error)
        else Preceded([item.value], CheckFrom(defs, raws, i + 1, seen + {item.value.endpoint}))
  {
    hide CheckItem;
  }

  lemma PrecededByNone(rest: Checked<seq<Update>>)
    ensures Preceded([], rest) == rest
  {
    if rest.Good? { assert [] + rest.value == rest.value; }
  }

  function Preceded(done: seq<Update>, rest: Checked<seq<Update>>): Checked<seq<Update>> {
    match rest
    case Good(more) => Good(done + more)
    case Bad(e) => Bad(e)
  }

  lemma PrecededTwice(done: seq<Update>, u: Update, rest: Checked<seq<Update>>)
    ensures Preceded(done, Preceded([u], rest)) == Preceded(done + [u], rest)
  {
    if rest.Good? { assert done + ([u] + rest.value) == (done + [u]) + rest.value; }
  }
}
