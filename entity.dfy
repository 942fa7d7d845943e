/**
 * The `Entity` record of sgsession/entity.py: a mapping from field name to
 * value, identified by its `type` and `id`, linked to other entities, with a
 * backref index and a merge engine.
 *
 * The session collaborators are fixed as follows: `session.merge` returns its
 * argument, the schema resolves every field name to itself, and timestamps
 * are integers (`Int`).
 */
module Entities {
  import opened Wrappers
  import opened Strings
  import opened DeepKeys
  import opened OrderedDicts

  /** The values a field can hold. `Ent` is a link to another (mutable) entity. */
  datatype Value =
    | Null
    | Bool(b: bool)
    | Int(i: int)
    | Str(s: string)
    | List(items: seq<Value>)
    | Tuple(items: seq<Value>)
    | Dict(entries: map<string, Value>)
    | Ent(e: Entity)

  /** The exceptions the core raises. `BadTimestamp` is whatever `parse_isotime` raises. */
  datatype Error =
    | KeyError(key: string)
    | TypeError(message: string)
    | ValueError(message: string)
    | RuntimeError(message: string)
    | BadTimestamp(value: Value)
    | NameError(name: string)

  type Fields = map<string, Value>

  /** A snapshot of the fields of a set of entities. */
  type Heap = map<Entity, Fields>

  /** The backref index of one entity: (linker type, field) to linkers, in order. */
  type Backrefs = map<(Value, string), seq<Entity>>

  /** Python truthiness. An entity always holds `type` and `id`, so it is never empty. */
  predicate Truthy(v: Value) {
    match v
    case Null => false
    case Bool(b) => b
    case Int(i) => i != 0
    case Str(s) => s != []
    case List(xs) => xs != []
    case Tuple(xs) => xs != []
    case Dict(m) => m != map[]
    case Ent(_) => true
  }

  /** `isinstance(v, dict)`: plain dicts and entities. */
  predicate IsMapping(v: Value) {
    v.Dict? || v.Ent?
  }

  /** Every entity `v` links to, at any depth of lists and dicts, is in `S`. */
  predicate Within(v: Value, S: set<Entity>) {
    match v
    case List(xs) => forall i :: 0 <= i < |xs| ==> Within(xs[i], S)
    case Tuple(xs) => forall i :: 0 <= i < |xs| ==> Within(xs[i], S)
    case Dict(m) => forall k :: k in m ==> Within(m[k], S)
    case Ent(e) => e in S
    case _ => true
  }

  /** Every entity of the snapshot has `type` and `id`, and links only to entities of the snapshot. */
  predicate Coherent(H: Heap) {
    && (forall e :: e in H ==> "type" in H[e] && "id" in H[e])
    && (forall e, k :: e in H && k in H[e] ==> Within(H[e][k], H.Keys))
  }

  /** `dict.get(f, k)`: the value, or None when absent. */
  function RawGet(f: Fields, k: string): Value {
    if k in f then f[k] else Null
  }

  // ---------------------------------------------------------------------
  // Identity (sgsession/entity.py:41-78, 125-130)
  // ---------------------------------------------------------------------

  /**
   * First component of a cache key; `DetachedOf(t)` stands for the text
   * `'Detached-%s' % t`, left unformatted, so `DetachedOf(Str("Unknown"))`
   * differs here from `Plain(Str("Detached-Unknown"))` although Python's
   * strings are equal.
   */
  datatype KeyHead = Plain(value: Value) | DetachedOf(typeValue: Value)

  /** Second component of a cache key: a field value, or the object's own identity (`id(self)`). */
  datatype KeyPart = Field(value: Value) | ObjectId(obj: Entity)

  datatype CacheKey = CacheKey(head: KeyHead, part: KeyPart)

  /** `cache_key` of the entity `obj` whose fields are `f`. */
  function CacheKeyOf(f: Fields, obj: Entity): (k: CacheKey)
    ensures k.part.ObjectId? <==> !(Truthy(RawGet(f, "type")) && Truthy(RawGet(f, "id"))) && !(!Truthy(RawGet(f, "type")) && Truthy(RawGet(f, "id")))
    ensures k.part.ObjectId? ==> k.part.obj == obj
    ensures k.part.Field? ==> k.part.value == RawGet(f, "id") && Truthy(k.part.value)
  {
    var t, i := RawGet(f, "type"), RawGet(f, "id");
    if Truthy(t) && Truthy(i) then CacheKey(Plain(t), Field(i))
    else if Truthy(t) then CacheKey(DetachedOf(t), ObjectId(obj))
    else if Truthy(i) then CacheKey(Plain(Str("Unknown")), Field(i))
    else CacheKey(Plain(Str("Detached-Unknown")), ObjectId(obj))
  }

  /**
   * A value Python's `hash` accepts: None, booleans, integers, strings, and
   * tuples of such values; lists and dicts are unhashable. A linked entity
   * counts as hashable (its own `__hash__` is not consulted here).
   */
  predicate Hashable(v: Value) {
    match v
    case List(_) => false
    case Dict(_) => false
    case Tuple(xs) => forall i :: 0 <= i < |xs| ==> Hashable(xs[i])
    case _ => true
  }

  /**
   * `__hash__`: the pair that is hashed, or TypeError unless both type and id
   * are truthy, and TypeError again when `hash((type_, id_))` meets an
   * unhashable value.
   */
  function HashOf(f: Fields): (r: Result<(Value, Value), Error>)
    ensures r.Ok? <==> Truthy(RawGet(f, "type")) && Truthy(RawGet(f, "id"))
                       && Hashable(RawGet(f, "type")) && Hashable(RawGet(f, "id"))
    ensures r.Ok? ==> r.value == (RawGet(f, "type"), RawGet(f, "id"))
    ensures r.Err? ==> r.error.TypeError?
  {
    var t, i := RawGet(f, "type"), RawGet(f, "id");
    if !(Truthy(t) && Truthy(i)) then Err(TypeError("entity must have type and id to be hashable"))
    else if !(Hashable(t) && Hashable(i)) then Err(TypeError("unhashable type"))
    else Ok((t, i))
  }

  /** `is_same_entity` between field mappings `f` (self) and `g` (other). */
  predicate SameIdentity(f: Fields, g: Fields) {
    RawGet(f, "type") == RawGet(g, "type") && RawGet(f, "id") == RawGet(g, "id")
  }

  /** `minimal`: a dict holding only `type` and `id`. */
  function MinimalOf(f: Fields): (m: Fields)
    requires "type" in f && "id" in f
    ensures m.Keys == {"type", "id"}
    ensures forall k :: k in m ==> m[k] == f[k]
  {
    map["type" := f["type"], "id" := f["id"]]
  }

  // ---------------------------------------------------------------------
  // Deep-link reads (sgsession/entity.py:238-265)
  // ---------------------------------------------------------------------

  /** `dict.__getitem__(src, key)` on a plain dict or an entity of the snapshot. */
  function Entry(H: Heap, src: Value, key: string): Option<Value> {
    match src
    case Dict(m) => if key in m then Some(m[key]) else None
    case Ent(e) => if e in H && key in H[e] then Some(H[e][key]) else None
    case _ => None
  }

  /** The loop of `__getitem__` from `src` with `remote` still to resolve; None is a KeyError. */
  function Walk(H: Heap, src: Value, remote: string): Option<Value>
    decreases |remote|
  {
    match ParseHop(remote, false)
    case None => Entry(H, src, remote)
    case Some(h) =>
      match Entry(H, src, h.local)
      case None => None
      case Some(next) =>
        if !IsMapping(next) || Entry(H, next, "type") != Some(Str(h.typeName)) then None
        else Walk(H, next, h.rest)
  }

  /** `self[key]` for the entity `self`; `type` and `id` are read directly. */
  function Lookup(H: Heap, self: Entity, key: string): Option<Value> {
    if key == "id" || key == "type" then Entry(H, Ent(self), key) else Walk(H, Ent(self), key)
  }

  /** The entity's own `updated_at`, as `_update` reads it through `self['updated_at']` (see StampLookup). */
  function OwnStamp(H: Heap, self: Entity): Option<Value> {
    Entry(H, Ent(self), "updated_at")
  }

  /** `updated_at` is not a deep key, so `self['updated_at']` is the entity's own field. */
  lemma StampLookup(H: Heap, self: Entity)
    ensures Lookup(H, self, "updated_at") == OwnStamp(H, self)
  {
    var stamp := "updated_at";
    assert '.' !in stamp;
    NoDotNoHop(stamp, false);
  }

  /** A lookup result as `__getitem__` reports it: the value, or KeyError of the requested key. */
  function Reported(o: Option<Value>, key: string): Result<Value, Error> {
    match o
    case Some(v) => Ok(v)
    case None => Err(KeyError(key))
  }

  function OrDefault(o: Option<Value>, default: Value): Value {
    match o
    case Some(v) => v
    case None => default
  }

  /** What `get` is asked for: one field name, or a list or tuple of names. */
  datatype Names = One(name: string) | Several(names: seq<string>)

  /** The current fields of every entity of `U`. */
  ghost function View(U: set<Entity>): (H: Heap)
    reads U`fields
    ensures H.Keys == U
  {
    map e | e in U :: e.fields
  }

  /** `dict.__getitem__(src, key)` read from the live objects. */
  method RawItem(src: Value, key: string, ghost U: set<Entity>) returns (r: Option<Value>)
    requires Within(src, U)
    ensures r == Entry(View(U), src, key)
  {
    match src
    case Dict(m) =>
      r := if key in m then Some(m[key]) else None;
    case Ent(e) =>
      r := if key in e.fields then Some(e.fields[key]) else None;
    case _ =>
      r := None;
  }

  /** The backref index of every entity of `U`. */
  ghost function Refs(U: set<Entity>): (R: map<Entity, Backrefs>)
    reads U`backrefs
    ensures R.Keys == U
  {
    map e | e in U :: e.backrefs
  }

  /** Writing a key that is already present keeps the key set. */
  lemma KeptKeys<K, V>(m: map<K, V>, k: K, v: V)
    requires k in m
    ensures m[k := v].Keys == m.Keys
  {
  }

  /** A second write to the same key replaces the first. */
  lemma Overwrite<K, V>(m: map<K, V>, k: K, a: V, b: V)
    ensures m[k := a][k := b] == m[k := b]
  {
  }

  /** Writing the fields `f` into the entity `e` of a coherent snapshot keeps it coherent. */
  lemma CoherentAfterWrite(H: Heap, e: Entity, f: Fields)
    requires Coherent(H) && e in H && "type" in f && "id" in f
    requires forall k :: k in f ==> Within(f[k], H.Keys)
    ensures Coherent(H[e := f])
  {
    assert H[e := f].Keys == H.Keys;
  }

  // ---------------------------------------------------------------------
  // Merge engine (sgsession/entity.py:266-361)
  // ---------------------------------------------------------------------

  /** `parse_isotime` on the integer timestamps of this model: anything but an `Int` does not parse. */
  function ParseTime(v: Value): Result<int, Error> {
    if v.Int? then Ok(v.i) else Err(BadTimestamp(v))
  }

  /** `expect_datetime` on the context time given to `_update`: None, or a timestamp. */
  function ExpectTime(v: Value): Result<Option<int>, Error> {
    match v
    case Null => Ok(None)
    case Int(t) => Ok(Some(t))
    case _ => Err(BadTimestamp(v))
  }

  /**
   * What `self[key] = value` does as written: a timestamp field whose value
   * does not parse reaches `log.exception`, and no `log` is defined in
   * entity.py, so a NameError escapes instead of the raw value being stored.
   */
  function StoredAsWritten(key: string, value: Value): (r: Result<Value, Error>)
    ensures r.Err? <==> (key == "updated_at" || key == "created_at") && !value.Int?
    ensures r.Ok? ==> r.value == value
    ensures r.Err? ==> r.error == NameError("log")
  {
    if key == "updated_at" || key == "created_at" then
      match ParseTime(value)
      case Ok(_) => Ok(value)
      case Err(_) => Err(NameError("log"))
    else Ok(value)
  }

  /** The private copy of the record being preprocessed, and the fields of the cached entities. */
  datatype Pre = Pre(data: ODict<Value>, heap: Heap)

  function FieldsOf(H: Heap, e: Entity): Fields {
    if e in H then H[e] else map[]
  }

  /**
   * The nested mapping `target` after `target.setdefault('type', T)` and, when
   * that yields `T` and `v` is not None, `target[rest] = v`.
   */
  function Deepened(target: map<string, Value>, h: Hop, v: Value): map<string, Value> {
    var typed := if "type" in target then target else target["type" := Str(h.typeName)];
    if typed["type"] == Str(h.typeName) && v != Null then typed[h.rest := v] else typed
  }

  /** One turn of the deep-key preprocessing loop, for the item `(k, v)` of the snapshot. */
  function PreStep(st: Pre, k: string, v: Value): (r: Result<Pre, Error>)
    requires st.data.Valid()
    ensures r.Ok? ==> r.value.data.Valid()
  {
    match ParseHop(k, true)
    case None => Ok(st)
    case Some(h) => PreHop(st, k, h, v)
  }

  /** The turn of the preprocessing loop for a deep key `k` that parses as the hop `h`. */
  function PreHop(st: Pre, k: string, h: Hop, v: Value): (r: Result<Pre, Error>)
    requires st.data.Valid()
    ensures r.Ok? ==> r.value.data.Valid()
  {
    if v == Null && h.rest == "id" then Ok(st.(data := st.data.Set(h.local, Null)))
    else if v == Null && IdKey(h.local, h.typeName) in st.data.vals
            && !Truthy(st.data.vals[IdKey(h.local, h.typeName)]) then Ok(st)
    else PreInto(Pre(st.data.SetDefault(h.local, Dict(map[])), st.heap), k, h, v)
  }

  /** The deep value set into what the record holds at `h.local`: a dict, an entity, or nothing usable. */
  function PreInto(st: Pre, k: string, h: Hop, v: Value): (r: Result<Pre, Error>)
    requires st.data.Valid() && h.local in st.data.vals
    ensures r.Ok? ==> r.value.data.Valid()
  {
    var d := st.data;
    match d.vals[h.local]
    case Dict(m) => Ok(Pre(d.Set(h.local, Dict(Deepened(m, h, v))).Delete(k), st.heap))
    case Ent(e) => Ok(Pre(d.Delete(k), st.heap[e := Deepened(FieldsOf(st.heap, e), h, v)]))
    case _ =>
      if v != Null then Err(ValueError("Setting deep value on non-dict"))
      else Ok(st.(data := d.Delete(k)))
  }

  /** The preprocessing loop over `items`; on failure, the state reached and the error. */
  function PreAll(st: Pre, items: seq<(string, Value)>): (r: (Pre, Option<Error>))
    requires st.data.Valid()
    ensures r.0.data.Valid()
    decreases |items|
  {
    if items == [] then (st, None)
    else
      match PreStep(st, items[0].0, items[0].1)
      case Err(e) => (st, Some(e))
      case Ok(next) => PreAll(next, items[1..])
  }

  /**
   * The override decision: forced by a truthy `over`, declined by any other
   * value but None; under None, whether the incoming timestamp (the record's
   * `updated_at`, else the context time) is newer than the entity's own.
   */
  function Decide(over: Value, own: Option<Value>, incoming: Option<Value>, context: Option<int>)
    : Result<bool, Error>
  {
    if Truthy(over) then Ok(true)
    else if over != Null then Ok(false)
    else if own.Some? && (incoming.Some? || context.Some?) then
      match ParseTime(own.value)
      case Err(e) => Err(e)
      case Ok(mine) =>
        match (if incoming.Some? then ParseTime(incoming.value) else Ok(context.value))
        case Err(e) => Err(e)
        case Ok(theirs) => Ok(theirs > mine)
    else Ok(true)
  }

  /** The entity's fields and every entity's backrefs during the assignment loop. */
  datatype Assigned = Assigned(fields: Fields, refs: map<Entity, Backrefs>)

  /** `target.backrefs.setdefault(key, [])`, then `linker` appended unless already there. */
  function Linked(R: map<Entity, Backrefs>, target: Entity, key: (Value, string), linker: Entity)
    : map<Entity, Backrefs>
  {
    var br := if target in R then R[target] else map[];
    var list := if key in br then br[key] else [];
    R[target := br[key := if linker in list then list else list + [linker]]]
  }

  /** The backrefs after `self[k] = v` left `self` with the fields `f`: a link to an entity is recorded on it. */
  function LinkedBy(R: map<Entity, Backrefs>, self: Entity, f: Fields, k: string, v: Value)
    : map<Entity, Backrefs>
  {
    if v.Ent? then Linked(R, v.e, (RawGet(f, "type"), k), self) else R
  }

  /** `self[k] = v` with its backref when `take` holds; nothing otherwise. */
  function StepBy(self: Entity, st: Assigned, k: string, v: Value, take: bool): Assigned {
    if take then
      var f := st.fields[k := v];
      Assigned(f, LinkedBy(st.refs, self, f, k, v))
    else st
  }

  /** One turn of the assignment loop: `(k, v)` is stored when overriding or when `k not in self`. */
  function AssignStep(H: Heap, self: Entity, st: Assigned, k: string, v: Value, override: bool)
    : Assigned
  {
    StepBy(self, st, k, v, override || Lookup(H[self := st.fields], self, k).None?)
  }

  function AssignAll(H: Heap, self: Entity, st: Assigned, items: seq<(string, Value)>, override: bool)
    : Assigned
    decreases |items|
  {
    if items == [] then st
    else AssignAll(H, self, AssignStep(H, self, st, items[0].0, items[0].1, override), items[1..], override)
  }

  /** The fields of every entity, every backref index, and the error `_update` raised, if any. */
  datatype Outcome = Outcome(heap: Heap, refs: map<Entity, Backrefs>, error: Option<Error>)

  /** `self._update(data, over, created_at)` on the snapshot `H` with backref indexes `R`. */
  function Updated(H: Heap, R: map<Entity, Backrefs>, self: Entity, data: ODict<Value>, over: Value,
                   createdAt: Value): Outcome
    requires data.Valid()
  {
    match ExpectTime(createdAt)
    case Err(e) => Outcome(H, R, Some(e))
    case Ok(context) => UpdatedAt(H, R, self, data, over, context)
  }

  /** `_update` once the context time is validated: the preprocessing, then the rest. */
  function UpdatedAt(H: Heap, R: map<Entity, Backrefs>, self: Entity, data: ODict<Value>, over: Value,
                        context: Option<int>): Outcome
    requires data.Valid()
  {
    var p := PreAll(Pre(data, H), data.Items());
    if p.1.Some? then Outcome(p.0.heap, R, p.1)
    else Applied(p.0.heap, R, self, p.0.data, over, context)
  }

  /** The override decision and the assignment loop of `_update` on the preprocessed record `d`. */
  function Applied(H: Heap, R: map<Entity, Backrefs>, self: Entity, d: ODict<Value>, over: Value,
                   context: Option<int>): Outcome
    requires d.Valid()
  {
    match Decide(over, OwnStamp(H, self), Incoming(d), context)
    case Err(e) => Outcome(H, R, Some(e))
    case Ok(override) =>
      var a := AssignAll(H, self, Assigned(FieldsOf(H, self), R), d.Items(), override);
      Outcome(H[self := a.fields], a.refs, None)
  }

  /** The incoming timestamp a record offers: its `updated_at`, if it has one. */
  function Incoming(d: ODict<Value>): Option<Value> {
    if "updated_at" in d.vals then Some(d.vals["updated_at"]) else None
  }

  /** The deep-key preprocessing loop of `_update` over the items of `data`. */
  method PreprocessDeepKeys(data: ODict<Value>, ghost U: set<Entity>) returns (d: ODict<Value>, err: Option<Error>)
    requires Coherent(View(U)) && data.Valid()
    requires forall k :: k in data.vals ==> Within(data.vals[k], U)
    modifies U`fields
    ensures var p := PreAll(Pre(data, old(View(U))), data.Items());
      View(U) == p.0.heap && err == p.1 && (err.None? ==> d == p.0.data)
    ensures d.Valid() && Coherent(View(U))
    ensures forall k :: k in d.vals ==> Within(d.vals[k], U)
  {
    var items := data.Items();
    d := data;
    ghost var goal := PreAll(Pre(data, View(U)), items);
    var i := 0;
    while i < |items|
      invariant 0 <= i <= |items| && d.Valid()
      invariant Coherent(View(U))
      invariant forall k :: k in d.vals ==> Within(d.vals[k], U)
      invariant PreAll(Pre(d, View(U)), items[i..]) == goal
    {
      var k, v := items[i].0, items[i].1;
      assert Within(v, U) by { assert k in data.vals; }
      ghost var before := Pre(d, View(U));
      var next;
      next, err := DeepenKey(d, k, v, U);
      if err.Some? {
        return;
      }
      d := next;
      i := i + 1;
    }
    err := None;
  }

  lemma DeepenedWithin(target: map<string, Value>, h: Hop, v: Value, S: set<Entity>)
    requires Within(Dict(target), S) && Within(v, S)
    ensures Within(Dict(Deepened(target, h, v)), S)
  {
    var r := Deepened(target, h, v);
    forall x | x in r
      ensures Within(r[x], S)
    {
      if x in target && x != "type" && x != h.rest {
        assert r[x] == target[x];
      }
    }
  }

  /** One turn of the preprocessing loop, for the item `(k, v)`. */
  method DeepenKey(d: ODict<Value>, k: string, v: Value, ghost U: set<Entity>) returns (d': ODict<Value>, err: Option<Error>)
    requires Coherent(View(U)) && d.Valid() && Within(v, U)
    requires forall k :: k in d.vals ==> Within(d.vals[k], U)
    modifies U`fields
    ensures var r := PreStep(Pre(d, old(View(U))), k, v);
      && (r.Err? ==> err == Some(r.error) && View(U) == old(View(U)))
      && (r.Ok? ==> err.None? && d' == r.value.data && View(U) == r.value.heap)
    ensures d'.Valid() && Coherent(View(U))
    ensures forall k :: k in d'.vals ==> Within(d'.vals[k], U)
  {
    var m := ParseHop(k, true);
    if m.None? {
      return d, None;
    }
    d', err := DeepenHop(d, k, m.value, v, U);
  }

  /** The deep key `k`, parsed as `h`, set into the record or the entity it names. */
  method DeepenHop(d: ODict<Value>, k: string, h: Hop, v: Value, ghost U: set<Entity>) returns (d': ODict<Value>, err: Option<Error>)
    requires Coherent(View(U)) && d.Valid() && Within(v, U)
    requires forall k :: k in d.vals ==> Within(d.vals[k], U)
    modifies U`fields
    ensures var r := PreHop(Pre(d, old(View(U))), k, h, v);
      && (r.Err? ==> err == Some(r.error) && View(U) == old(View(U)))
      && (r.Ok? ==> err.None? && d' == r.value.data && View(U) == r.value.heap)
    ensures d'.Valid() && Coherent(View(U))
    ensures forall k :: k in d'.vals ==> Within(d'.vals[k], U)
  {
    ghost var H := View(U);
    ghost var r := PreHop(Pre(d, H), k, h, v);
    d', err := d, None;
    if v == Null && h.rest == "id" {
      d' := d.Set(h.local, Null);
      assert r == Ok(Pre(d', H));
      return;
    }
    var idKey := IdKey(h.local, h.typeName);
    if v == Null && idKey in d.vals && !Truthy(d.vals[idKey]) {
      assert r == Ok(Pre(d, H));
      return;
    }
    var e := d.SetDefault(h.local, Dict(map[]));
    d', err := DeepenInto(e, k, h, v, U);
  }

  /** The deep value set into the dict or the entity that `e` holds at `h.local`. */
  method DeepenInto(e: ODict<Value>, k: string, h: Hop, v: Value, ghost U: set<Entity>) returns (d': ODict<Value>, err: Option<Error>)
    requires Coherent(View(U)) && e.Valid() && h.local in e.vals && Within(v, U)
    requires forall k :: k in e.vals ==> Within(e.vals[k], U)
    modifies U`fields
    ensures var r := PreInto(Pre(e, old(View(U))), k, h, v);
      && (r.Err? ==> err == Some(r.error) && View(U) == old(View(U)))
      && (r.Ok? ==> err.None? && d' == r.value.data && View(U) == r.value.heap)
    ensures d'.Valid() && Coherent(View(U))
    ensures forall k :: k in d'.vals ==> Within(d'.vals[k], U)
  {
    ghost var H := View(U);
    ghost var r := PreInto(Pre(e, H), k, h, v);
    assert Within(e.vals[h.local], U);
    err := None;
    match e.vals[h.local]
    case Dict(t) =>
      var typed := Deepened(t, h, v);
      DeepenedWithin(t, h, v, U);
      d' := e.Set(h.local, Dict(typed)).Delete(k);
      assert r == Ok(Pre(d', H));
    case Ent(target) =>
      assert FieldsOf(H, target) == target.fields;
      target.Deepen(h, v, U);
      d' := e.Delete(k);
      assert r == Ok(Pre(d', View(U)));
    case _ =>
      if v != Null {
        assert r == Err(ValueError("Setting deep value on non-dict"));
        return e, Some(ValueError("Setting deep value on non-dict"));
      }
      d' := e.Delete(k);
      assert r == Ok(Pre(d', H));
  }

  class Entity {
    var fields: Fields
    var backrefs: Backrefs
    /** `_exists`: None until the session has checked. */
    var existence: Option<bool>

    ghost predicate Valid()
      reads this
    {
      "type" in fields && "id" in fields
    }

    constructor (typeName: Value, id: Value)
      ensures Valid()
      ensures fields == map["type" := typeName, "id" := id]
      ensures backrefs == map[] && existence == None
    {
      fields := map["type" := typeName, "id" := id];
      backrefs := map[];
      existence := None;
    }

    function CacheKey(): CacheKey
      reads this
    {
      CacheKeyOf(fields, this)
    }

    function Hash(): Result<(Value, Value), Error>
      reads this
    {
      HashOf(fields)
    }

    /** `is_same_entity(other)` for a dict or an entity `other`. */
    predicate IsSameEntity(other: Value)
      requires IsMapping(other)
      reads this, if other.Ent? then {other.e} else {}
    {
      SameIdentity(fields, if other.Dict? then other.entries else other.e.fields)
    }

    function Minimal(): Fields
      reads this
      requires Valid()
    {
      MinimalOf(fields)
    }

    /** `copy` always fails: a duplicate would break the one-object-per-identity cache. */
    function Copy(): (r: Result<Value, Error>)
      ensures r.Err? && r.error.RuntimeError?
    {
      Err(RuntimeError("cannot copy Entity"))
    }

    /**
     * The local part of `exists`: an entity whose id or type is None does not
     * exist; otherwise (None here) the answer comes from the session.
     */
    function ExistsLocally(): (r: Option<bool>)
      reads this
      ensures r.Some? ==> r.value == false
      ensures r.None? <==> RawGet(fields, "id") != Null && RawGet(fields, "type") != Null
    {
      if RawGet(fields, "id") == Null || RawGet(fields, "type") == Null then Some(false) else None
    }

    /** `minimize(keys, strict)`: `minimal` plus the requested fields that are present. */
    method Minimize(keys: seq<string>, strict: bool) returns (r: Result<Fields, Error>)
      requires Valid()
      ensures r.Ok? <==> !strict || forall i :: 0 <= i < |keys| ==> keys[i] in fields
      ensures r.Ok? ==> r.value == map k | k in fields && (k in keys || k == "type" || k == "id") :: fields[k]
      ensures r.Err? ==> exists i :: 0 <= i < |keys| && keys[i] !in fields && r.error == KeyError(keys[i])
                              && forall j :: 0 <= j < i ==> keys[j] in fields
    {
      var ret := Minimal();
      var i := 0;
      while i < |keys|
        invariant 0 <= i <= |keys|
        invariant ret == map k | k in fields && (k in keys[..i] || k == "type" || k == "id") :: fields[k]
        invariant strict ==> forall j :: 0 <= j < i ==> keys[j] in fields
      {
        var key := keys[i];
        if key in fields {
          ret := ret[key := fields[key]];
        } else if strict {
          return Err(KeyError(key));
        }
        assert keys[..i + 1] == keys[..i] + [key];
        i := i + 1;
      }
      assert keys[..i] == keys;
      return Ok(ret);
    }

    /** `self[key]`: the deep-link read; every failure is KeyError of `key` itself. */
    method GetItem(key: string, ghost U: set<Entity>) returns (r: Result<Value, Error>)
      requires this in U && Coherent(View(U))
      ensures r == Reported(Lookup(View(U), this, key), key)
    {
      ghost var H := View(U);
      if key == "id" || key == "type" {
        var x := RawItem(Ent(this), key, U);
        return Reported(x, key);
      }
      var src := Ent(this);
      var remote := key;
      while true
        invariant Within(src, U)
        invariant Walk(H, Ent(this), key) == Walk(H, src, remote)
        decreases |remote|
      {
        var m := ParseHop(remote, false);
        if m.None? {
          break;
        }
        var hop := m.value;
        var next := RawItem(src, hop.local, U);
        if next.None? || !IsMapping(next.value) {
          return Err(KeyError(key));
        }
        assert Within(next.value, U);
        var t := RawItem(next.value, "type", U);
        if t != Some(Str(hop.typeName)) {
          return Err(KeyError(key));
        }
        src, remote := next.value, hop.rest;
      }
      var x := RawItem(src, remote, U);
      return Reported(x, key);
    }

    /** `key in self`: the read succeeds. */
    method Contains(key: string, ghost U: set<Entity>) returns (b: bool)
      requires this in U && Coherent(View(U))
      ensures b <==> Lookup(View(U), this, key).Some?
    {
      var r := GetItem(key, U);
      b := r.Ok?;
    }

    /** `get(fields, default)`: one value, or a tuple with one value per name. */
    method Get(names: Names, default: Value, ghost U: set<Entity>) returns (r: Value)
      requires this in U && Coherent(View(U))
      ensures names.One? ==> r == OrDefault(Lookup(View(U), this, names.name), default)
      ensures names.Several? ==> r.Tuple? && |r.items| == |names.names|
      ensures names.Several? ==> forall i :: 0 <= i < |names.names| ==>
                r.items[i] == OrDefault(Lookup(View(U), this, names.names[i]), default)
    {
      if names.Several? {
        var res: seq<Value> := [];
        var i := 0;
        while i < |names.names|
          invariant 0 <= i <= |names.names| && |res| == i
          invariant forall j :: 0 <= j < i ==> res[j] == OrDefault(Lookup(View(U), this, names.names[j]), default)
        {
          var x := GetItem(names.names[i], U);
          res := res + [if x.Ok? then x.value else default];
          i := i + 1;
        }
        return Tuple(res);
      }
      var x := GetItem(names.name, U);
      r := if x.Ok? then x.value else default;
    }

    /** The local part of `project`: a Project is its own project, else a cached `project` field. */
    method ProjectLocally(ghost U: set<Entity>) returns (r: Option<Value>)
      requires this in U && Coherent(View(U))
      ensures View(U)[this]["type"] == Str("Project") ==> r == Some(Ent(this))
      ensures View(U)[this]["type"] != Str("Project") ==> r == Lookup(View(U), this, "project")
    {
      var t := GetItem("type", U);
      assert Lookup(View(U), this, "type") == Some(View(U)[this]["type"]);
      if t == Ok(Str("Project")) {
        return Some(Ent(this));
      }
      var p := GetItem("project", U);
      r := if p.Ok? then Some(p.value) else None;
    }

    /** `self[key] = value` (field names resolve to themselves, merge returns its argument). */
    method SetItem(key: string, value: Value, ghost U: set<Entity>)
      requires this in U
      modifies this`fields
      ensures fields == old(fields)[key := value]
      ensures View(U) == old(View(U))[this := fields]
    {
      ghost var before := View(U);
      fields := fields[key := value];
      forall x | x in U
        ensures View(U)[x] == before[this := fields][x]
      {
      }
    }

    /**
     * `self.setdefault('type', T)` then, when that yields `T` and `v` is not
     * None, `self[rest] = v`: a deep key of a record landing on this entity.
     */
    method Deepen(h: Hop, v: Value, ghost U: set<Entity>)
      requires this in U && Coherent(View(U)) && Within(v, U)
      modifies this`fields
      ensures View(U) == old(View(U))[this := Deepened(old(fields), h, v)]
      ensures Coherent(View(U))
    {
      ghost var H := View(U);
      // An entity always holds `type`, so `setdefault` returns it unchanged.
      assert "type" in H[this];
      if fields["type"] == Str(h.typeName) && v != Null {
        SetItem(h.rest, v, U);
        Overwrite(H, this, H[this], fields);
      } else {
        assert H[this := fields] == H;
      }
      CoherentAfterWrite(H, this, fields);
    }

    /**
     * `_update(data, over, created_at)`: fold the record `data` into this
     * entity. Returns the exception raised, if any; the changes made before it
     * stay made.
     */
    method Update(data: ODict<Value>, over: Value, createdAt: Value, ghost U: set<Entity>)
      returns (err: Option<Error>)
      requires this in U && Coherent(View(U)) && data.Valid()
      requires forall k :: k in data.vals ==> Within(data.vals[k], U)
      modifies U`fields, U`backrefs
      ensures var o := Updated(old(View(U)), old(Refs(U)), this, data, over, createdAt);
        View(U) == o.heap && Refs(U) == o.refs && err == o.error
    {
      var context := ExpectTime(createdAt);
      if context.Err? {
        return Some(context.error);
      }
      err := UpdateAt(data, over, context.value, U);
    }

    /** `_update` once the context time is validated. */
    method UpdateAt(data: ODict<Value>, over: Value, context: Option<int>, ghost U: set<Entity>)
      returns (err: Option<Error>)
      requires this in U && Coherent(View(U)) && data.Valid()
      requires forall k :: k in data.vals ==> Within(data.vals[k], U)
      modifies U`fields, U`backrefs
      ensures var o := UpdatedAt(old(View(U)), old(Refs(U)), this, data, over, context);
        View(U) == o.heap && Refs(U) == o.refs && err == o.error
    {
      ghost var H, R := View(U), Refs(U);
      ghost var p := PreAll(Pre(data, H), data.Items());
      var d;
      d, err := PreprocessDeepKeys(data, U);
      if err.Some? {
        assert UpdatedAt(H, R, this, data, over, context) == Outcome(p.0.heap, R, p.1);
        return;
      }
      assert d == p.0.data && View(U) == p.0.heap;
      assert UpdatedAt(H, R, this, data, over, context) == Applied(p.0.heap, R, this, d, over, context);
      err := Apply(d, over, context, U);
    }

    /** The override decision and the assignment loop of `_update` on the preprocessed record `d`. */
    method Apply(d: ODict<Value>, over: Value, context: Option<int>, ghost U: set<Entity>)
      returns (err: Option<Error>)
      requires this in U && Coherent(View(U)) && d.Valid()
      requires forall k :: k in d.vals ==> Within(d.vals[k], U)
      modifies this`fields, U`backrefs
      ensures var o := Applied(old(View(U)), old(Refs(U)), this, d, over, context);
        View(U) == o.heap && Refs(U) == o.refs && err == o.error
    {
      ghost var H, R := View(U), Refs(U);
      var override;
      override, err := DecideOverride(d, over, context, U);
      if err.Some? {
        return;
      }
      assert FieldsOf(H, this) == fields;
      AssignFields(d, override, U);
    }

    /** The override decision of `_update` once the record is preprocessed into `d`. */
    method DecideOverride(d: ODict<Value>, over: Value, context: Option<int>, ghost U: set<Entity>)
      returns (override: bool, err: Option<Error>)
      requires this in U && Coherent(View(U))
      ensures var r := Decide(over, OwnStamp(View(U), this), Incoming(d), context);
        (r.Ok? ==> err.None? && override == r.value) && (r.Err? ==> err == Some(r.error))
    {
      StampLookup(View(U), this);
      err := None;
      if Truthy(over) {
        override := true;
      } else if over == Null {
        var stamped := Contains("updated_at", U);
        if stamped && ("updated_at" in d.vals || context.Some?) {
          var own := GetItem("updated_at", U);
          var mine := ParseTime(own.value);
          if mine.Err? {
            return false, Some(mine.error);
          }
          var theirs := if "updated_at" in d.vals then ParseTime(d.vals["updated_at"]) else Ok(context.value);
          if theirs.Err? {
            return false, Some(theirs.error);
          }
          override := theirs.value > mine.value;
        } else {
          override := true;
        }
      } else {
        override := false;
      }
    }

    /** The assignment loop of `_update` over the preprocessed record `d`. */
    method AssignFields(d: ODict<Value>, override: bool, ghost U: set<Entity>)
      requires this in U && Coherent(View(U)) && d.Valid()
      requires forall k :: k in d.vals ==> Within(d.vals[k], U)
      modifies this`fields, U`backrefs
      ensures var a := AssignAll(old(View(U)), this, Assigned(old(fields), old(Refs(U))), d.Items(), override);
        View(U) == old(View(U))[this := a.fields] && Refs(U) == a.refs
      ensures Coherent(View(U))
    {
      ghost var H := View(U);
      var pairs := d.Items();
      ghost var goal := AssignAll(H, this, Assigned(fields, Refs(U)), pairs, override);
      var j := 0;
      assert pairs[j..] == pairs;
      while j < |pairs|
        invariant 0 <= j <= |pairs|
        invariant View(U) == H[this := fields]
        invariant Coherent(View(U))
        invariant AssignAll(H, this, Assigned(fields, Refs(U)), pairs[j..], override) == goal
      {
        var k, v := pairs[j].0, pairs[j].1;
        assert Within(v, U) by { assert k in d.vals; }
        AssignItem(k, v, override, H, U);
        assert pairs[j..][1..] == pairs[j + 1..];
        j := j + 1;
      }
      assert pairs[j..] == [];
    }

    /** The test of the assignment loop: overriding, or `k not in self`. */
    method Stores(k: string, override: bool, ghost H: Heap, ghost U: set<Entity>) returns (take: bool)
      requires this in U && Coherent(View(U)) && View(U) == H[this := fields]
      ensures take == (override || Lookup(H[this := fields], this, k).None?)
    {
      var present := Contains(k, U);
      take := override || !present;
    }

    /** One turn of the assignment loop: the test, then `self[k] = v` with its backref. */
    method AssignItem(k: string, v: Value, override: bool, ghost H: Heap, ghost U: set<Entity>)
      requires this in U && Coherent(View(U)) && View(U) == H[this := fields] && Within(v, U)
      modifies this`fields, U`backrefs
      ensures Assigned(fields, Refs(U)) == AssignStep(H, this, Assigned(old(fields), old(Refs(U))), k, v, override)
      ensures View(U) == H[this := fields] && Coherent(View(U))
    {
      ghost var st := Assigned(fields, Refs(U));
      var take := Stores(k, override, H, U);
      if take {
        Assign(k, v, U);
        Overwrite(H, this, st.fields, fields);
      }
      assert StepBy(this, st, k, v, take) == Assigned(fields, Refs(U));
    }

    /** `self[k] = v` and, when `v` is an entity, the backref on it. */
    method Assign(k: string, v: Value, ghost U: set<Entity>)
      requires this in U && Coherent(View(U)) && Within(v, U)
      modifies this`fields, U`backrefs
      ensures fields == old(fields)[k := v]
      ensures View(U) == old(View(U))[this := fields] && Coherent(View(U))
      ensures Refs(U) == LinkedBy(old(Refs(U)), this, fields, k, v)
    {
      ghost var before, R := View(U), Refs(U);
      SetItem(k, v, U);
      CoherentAfterWrite(before, this, fields);
      assert Refs(U) == R;
      if v.Ent? {
        AddBackref(v.e, (RawGet(fields, "type"), k), U);
      }
    }

    /** `target.backrefs.setdefault(key, [])`, then this entity appended unless already listed. */
    method AddBackref(target: Entity, key: (Value, string), ghost U: set<Entity>)
      requires target in U
      modifies target`backrefs
      ensures Refs(U) == Linked(old(Refs(U)), target, key, this)
    {
      ghost var R := Refs(U);
      var list := if key in target.backrefs then target.backrefs[key] else [];
      if this !in list {
        list := list + [this];
      }
      target.backrefs := target.backrefs[key := list];
      assert Refs(U) == R[target := target.backrefs];
    }
  }
}
