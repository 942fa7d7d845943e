/**
 * Properties of the merge engine of `Entity._update`
 * (sgsession/entity.py:287-361): the deep-key preprocessing, the override
 * decision, the assignment loop and its backrefs, and idempotence.
 */
module MergeProperties {
  import opened Wrappers
  import opened DeepKeys
  import opened OrderedDicts
  import opened Entities

  /** The field names a list of items assigns. */
  function Firsts(items: seq<(string, Value)>): set<string> {
    set j | 0 <= j < |items| :: items[j].0
  }

  /** A field name that `__getitem__` reads as a deep link. */
  predicate Dotted(k: string) {
    ParseHop(k, false).Some?
  }

  /** A plain field name is present on an entity exactly when it is one of its fields. */
  lemma PlainLookup(H: Heap, self: Entity, f: Fields, k: string)
    requires !Dotted(k)
    ensures Lookup(H[self := f], self, k) == if k in f then Some(f[k]) else None
  {
  }

  lemma FirstsTail(items: seq<(string, Value)>)
    requires items != []
    ensures Firsts(items) == {items[0].0} + Firsts(items[1..])
  {
    forall k | k in Firsts(items)
      ensures k in {items[0].0} + Firsts(items[1..])
    {
      var j :| 0 <= j < |items| && items[j].0 == k;
      if j > 0 {
        assert items[1..][j - 1].0 == k;
      }
    }
    forall k | k in Firsts(items[1..])
      ensures k in Firsts(items)
    {
      var j :| 0 <= j < |items[1..]| && items[1..][j].0 == k;
      assert items[j + 1].0 == k;
    }
  }

  /**
   * With plain field names, the assignment loop stores each item when
   * overriding or when the field is absent, keeps the old value otherwise,
   * and leaves every other field as it was.
   */
  lemma {:induction false} AssignAllFields(H: Heap, self: Entity, st: Assigned, items: seq<(string, Value)>,
                                           override: bool)
    requires DistinctKeys(items)
    requires forall j :: 0 <= j < |items| ==> !Dotted(items[j].0)
    ensures var r := AssignAll(H, self, st, items, override);
      && (forall j :: 0 <= j < |items| ==>
            items[j].0 in r.fields &&
            r.fields[items[j].0] == if override || items[j].0 !in st.fields then items[j].1 else st.fields[items[j].0])
      && (forall k :: k !in Firsts(items) ==>
            (k in r.fields <==> k in st.fields) && (k in st.fields ==> r.fields[k] == st.fields[k]))
    decreases |items|
  {
    if items != [] {
      var k, v := items[0].0, items[0].1;
      PlainLookup(H, self, st.fields, k);
      var st1 := AssignStep(H, self, st, k, v, override);
      var rest := items[1..];
      AssignAllFields(H, self, st1, rest, override);
      FirstsTail(items);
      var r := AssignAll(H, self, st, items, override);
      assert r == AssignAll(H, self, st1, rest, override);
      forall j | 0 <= j < |items|
        ensures items[j].0 in r.fields
        ensures r.fields[items[j].0] == if override || items[j].0 !in st.fields then items[j].1 else st.fields[items[j].0]
      {
        if j == 0 {
          assert k !in Firsts(rest);
        } else {
          assert rest[j - 1] == items[j];
          assert items[j].0 != k;
        }
      }
    }
  }

  // ---------------------------------------------------------------------
  // Backrefs (sgsession/entity.py:357-361)
  // ---------------------------------------------------------------------

  predicate NoDups(s: seq<Entity>) {
    forall i, j :: 0 <= i < j < |s| ==> s[i] != s[j]
  }

  /** No backref list names the same linker twice. */
  predicate RefsNoDups(R: map<Entity, Backrefs>) {
    forall e, key :: e in R && key in R[e] ==> NoDups(R[e][key])
  }

  /** `x` is listed under `key` in the backrefs of `e`. */
  predicate Listed(R: map<Entity, Backrefs>, e: Entity, key: (Value, string), x: Entity) {
    e in R && key in R[e] && x in R[e][key]
  }

  lemma {:induction false} OnceIfNoDups(s: seq<Entity>, x: Entity)
    requires NoDups(s) && x in s
    ensures multiset(s)[x] == 1
  {
    if s[0] == x {
      assert x !in s[1..];
      assert s == [s[0]] + s[1..];
    } else {
      OnceIfNoDups(s[1..], x);
      assert s == [s[0]] + s[1..];
    }
  }

  /**
   * Recording a backref lists the linker under the key exactly once, keeps
   * every list free of duplicates, and touches no other list.
   */
  lemma LinkedOnce(R: map<Entity, Backrefs>, target: Entity, key: (Value, string), linker: Entity)
    requires RefsNoDups(R)
    ensures var R' := Linked(R, target, key, linker);
      && RefsNoDups(R')
      && Listed(R', target, key, linker)
      && multiset(R'[target][key])[linker] == 1
      && (forall e, k, x :: Listed(R, e, k, x) ==> Listed(R', e, k, x))
      && (forall e, k :: e in R && k in R[e] && (e, k) != (target, key) ==> e in R' && k in R'[e] && R'[e][k] == R[e][k])
  {
    var R' := Linked(R, target, key, linker);
    OnceIfNoDups(R'[target][key], linker);
  }

  /** Recording a backref that is already there changes nothing: repeated merges never duplicate it. */
  lemma LinkedAgain(R: map<Entity, Backrefs>, target: Entity, key: (Value, string), linker: Entity)
    requires Listed(R, target, key, linker)
    ensures Linked(R, target, key, linker) == R
  {
    assert R[target][key := R[target][key]] == R[target];
  }

  /** The assignment loop keeps every backref list free of duplicates and removes no backref. */
  lemma {:induction false} AssignAllKeepsRefs(H: Heap, self: Entity, st: Assigned, items: seq<(string, Value)>,
                                              override: bool)
    requires RefsNoDups(st.refs)
    ensures var r := AssignAll(H, self, st, items, override);
      RefsNoDups(r.refs) && forall e, k, x :: Listed(st.refs, e, k, x) ==> Listed(r.refs, e, k, x)
    decreases |items|
  {
    if items != [] {
      var k, v := items[0].0, items[0].1;
      var st1 := AssignStep(H, self, st, k, v, override);
      if v.Ent? {
        LinkedOnce(st.refs, v.e, (RawGet(st.fields[k := v], "type"), k), self);
      }
      AssignAllKeepsRefs(H, self, st1, items[1..], override);
    }
  }

  /**
   * When overriding, every entity-valued item leaves this entity listed
   * exactly once in the target's backrefs under (its type, the field name),
   * provided the record does not also change `type`.
   */
  lemma {:induction false} AssignAllLinks(H: Heap, self: Entity, st: Assigned, items: seq<(string, Value)>)
    requires RefsNoDups(st.refs) && "type" !in Firsts(items)
    ensures var r := AssignAll(H, self, st, items, true);
      forall j :: 0 <= j < |items| && items[j].1.Ent? ==>
        var key := (RawGet(st.fields, "type"), items[j].0);
        Listed(r.refs, items[j].1.e, key, self) && multiset(r.refs[items[j].1.e][key])[self] == 1
    decreases |items|
  {
    if items != [] {
      var k, v := items[0].0, items[0].1;
      var st1 := AssignStep(H, self, st, k, v, true);
      assert k != "type";
      assert RawGet(st1.fields, "type") == RawGet(st.fields, "type");
      if v.Ent? {
        LinkedOnce(st.refs, v.e, (RawGet(st.fields[k := v], "type"), k), self);
      }
      FirstsTail(items);
      AssignAllLinks(H, self, st1, items[1..]);
      AssignAllKeepsRefs(H, self, st1, items[1..], true);
      var r := AssignAll(H, self, st, items, true);
      forall j | 0 <= j < |items| && items[j].1.Ent?
        ensures var key := (RawGet(st.fields, "type"), items[j].0);
          Listed(r.refs, items[j].1.e, key, self) && multiset(r.refs[items[j].1.e][key])[self] == 1
      {
        var key := (RawGet(st.fields, "type"), items[j].0);
        if j == 0 {
          OnceIfNoDups(r.refs[v.e][key], self);
        } else {
          assert items[1..][j - 1] == items[j];
        }
      }
    }
  }

  // ---------------------------------------------------------------------
  // Deep-key preprocessing (sgsession/entity.py:302-329)
  // ---------------------------------------------------------------------

  /** A record key that the preprocessing treats as a deep key. */
  predicate Deep(k: string) {
    ParseHop(k, true).Some?
  }

  /** The two `continue` branches: the dotted key is left in the record. */
  predicate Continues(D: map<string, Value>, h: Hop, v: Value) {
    v == Null && (h.rest == "id" || (IdKey(h.local, h.typeName) in D && !Truthy(D[IdKey(h.local, h.typeName)])))
  }

  /** The local field name of a hop is never itself a deep key, nor the dotted key it came from. */
  lemma LocalIsPlain(k: string, h: Hop)
    requires ParseHop(k, true) == Some(h)
    ensures !Deep(h.local) && h.local != k
  {
    WordIsNoHop(h.local, true);
  }

  /**
   * Setting a deep value into what the record holds at `f` fails exactly
   * when the value is not None and `f` holds no mapping; otherwise the
   * dotted key leaves the record and only `f` may change beside it.
   */
  lemma PreIntoShape(st: Pre, k: string, h: Hop, v: Value)
    requires st.data.Valid() && h.local in st.data.vals
    ensures var r := PreInto(st, k, h, v);
      && (r.Err? <==> v != Null && !IsMapping(st.data.vals[h.local]))
      && (r.Err? ==> r.error == ValueError("Setting deep value on non-dict"))
      && (r.Ok? ==> k !in r.value.data.vals)
      && (r.Ok? ==> forall x :: x != k && x != h.local ==>
            (x in r.value.data.vals <==> x in st.data.vals) &&
            (x in st.data.vals ==> r.value.data.vals[x] == st.data.vals[x]))
  {
    match st.data.vals[h.local]
    case Dict(m) =>
    case Ent(e) =>
    case _ =>
  }

  /** `SetDefault` of `f` to an empty dict: `f` holds its old value or that dict, and nothing else changes. */
  lemma DefaultedLocal(d: ODict<Value>, f: string)
    requires d.Valid()
    ensures var e := d.SetDefault(f, Dict(map[]));
      && e.vals.Keys == d.vals.Keys + {f}
      && e.vals[f] == (if f in d.vals then d.vals[f] else Dict(map[]))
      && forall x :: x in d.vals ==> e.vals[x] == d.vals[x]
  {
  }

  /** Preprocessing an item fails exactly on a non-null deep value landing on an existing non-mapping. */
  lemma PreStepFails(st: Pre, k: string, v: Value)
    requires st.data.Valid()
    ensures var r := PreStep(st, k, v);
      && (r.Err? <==> Deep(k) && v != Null && ParseHop(k, true).value.local in st.data.vals
                      && !IsMapping(st.data.vals[ParseHop(k, true).value.local]))
      && (r.Err? ==> r.error == ValueError("Setting deep value on non-dict"))
  {
    match ParseHop(k, true)
    case None =>
    case Some(h) =>
      assert PreStep(st, k, v) == PreHop(st, k, h, v);
      if !Continues(st.data.vals, h, v) {
        var e := st.data.SetDefault(h.local, Dict(map[]));
        DefaultedLocal(st.data, h.local);
        PreIntoShape(Pre(e, st.heap), k, h, v);
        assert PreHop(st, k, h, v) == PreInto(Pre(e, st.heap), k, h, v);
      }
  }

  /** A null `f.T.id` sets `f` to None and stays in the record. */
  lemma NullIdClearsLink(st: Pre, k: string, h: Hop)
    requires st.data.Valid() && ParseHop(k, true) == Some(h) && h.rest == "id"
    ensures var r := PreStep(st, k, Null);
      && r.Ok? && r.value.heap == st.heap
      && r.value.data.vals == st.data.vals[h.local := Null]
  {
  }

  /** A null non-id deep key whose sibling id key is present and falsy is skipped and stays in the record. */
  lemma NullSkippedBesideFalsyId(st: Pre, k: string, h: Hop)
    requires st.data.Valid() && ParseHop(k, true) == Some(h) && h.rest != "id"
    requires IdKey(h.local, h.typeName) in st.data.vals && !Truthy(st.data.vals[IdKey(h.local, h.typeName)])
    ensures PreStep(st, k, Null) == Ok(st)
  {
  }

  /**
   * Otherwise, when `f` is absent or a plain dict, the dotted key leaves the
   * record and `f` becomes a dict whose `type` is its old one or `T`; the
   * value lands in it only when that type is `T` and the value is not None,
   * and nothing else changes.
   */
  lemma DeepValueLandsInDict(st: Pre, k: string, h: Hop, v: Value)
    requires st.data.Valid() && ParseHop(k, true) == Some(h) && !Continues(st.data.vals, h, v)
    requires h.local !in st.data.vals || st.data.vals[h.local].Dict?
    ensures var D, r := st.data.vals, PreStep(st, k, v);
      var m := if h.local in D then D[h.local].entries else map[];
      var t := if "type" in m then m["type"] else Str(h.typeName);
      && r.Ok? && r.value.heap == st.heap
      && k !in r.value.data.vals
      && h.local in r.value.data.vals && r.value.data.vals[h.local].Dict?
      && var m' := r.value.data.vals[h.local].entries;
      && "type" in m'
      && (t == Str(h.typeName) && v != Null ==> h.rest in m' && m'[h.rest] == v)
      && (t != Str(h.typeName) ==> m' == m)
      && (forall x :: x in m && x != h.rest ==> x in m' && m'[x] == m[x])
      && (forall x :: x in D && x != k && x != h.local ==> x in r.value.data.vals && r.value.data.vals[x] == D[x])
      && (forall x :: x in r.value.data.vals ==> x in D || x == h.local)
  {
    var D := st.data.vals;
    var m := if h.local in D then D[h.local].entries else map[];
    var d := st.data.SetDefault(h.local, Dict(map[]));
    PreHopIntoDict(st, k, h, v);
    assert PreStep(st, k, v) == PreHop(st, k, h, v);
    DeepenedShape(m, h, v);
    assert h.local != k by {
      assert |k| >= |Join(h)| > |h.local|;
    }
  }

  lemma PreHopIntoDict(st: Pre, k: string, h: Hop, v: Value)
    requires st.data.Valid() && !Continues(st.data.vals, h, v)
    requires h.local !in st.data.vals || st.data.vals[h.local].Dict?
    ensures var D := st.data.vals;
      var m := if h.local in D then D[h.local].entries else map[];
      PreHop(st, k, h, v) == Ok(Pre(st.data.SetDefault(h.local, Dict(map[])).Set(h.local, Dict(Deepened(m, h, v))).Delete(k), st.heap))
  {
    var D := st.data.vals;
    var m := if h.local in D then D[h.local].entries else map[];
    var d := st.data.SetDefault(h.local, Dict(map[]));
    assert d.vals[h.local] == Dict(m);
    assert PreHop(st, k, h, v) == PreInto(Pre(d, st.heap), k, h, v);
  }

  lemma DeepenedShape(m: map<string, Value>, h: Hop, v: Value)
    ensures var t := if "type" in m then m["type"] else Str(h.typeName);
      var m' := Deepened(m, h, v);
      && "type" in m'
      && (t == Str(h.typeName) && v != Null ==> h.rest in m' && m'[h.rest] == v)
      && (t != Str(h.typeName) ==> m' == m)
      && (forall x :: x in m && x != h.rest ==> x in m' && m'[x] == m[x])
  {
  }

  /**
   * When `f` holds an entity, the dotted key leaves the record, `f` still
   * holds the entity, and the entity receives the value exactly when its
   * type is `T` and the value is not None.
   */
  lemma DeepValueLandsOnEntity(st: Pre, k: string, h: Hop, v: Value, e: Entity)
    requires st.data.Valid() && ParseHop(k, true) == Some(h) && !Continues(st.data.vals, h, v)
    requires h.local in st.data.vals && st.data.vals[h.local] == Ent(e)
    requires e in st.heap && "type" in st.heap[e]
    ensures var r := PreStep(st, k, v);
      && r.Ok? && k !in r.value.data.vals
      && r.value.data.vals == st.data.vals - {k}
      && r.value.heap.Keys == st.heap.Keys
      && (forall x :: x in st.heap && x != e ==> r.value.heap[x] == st.heap[x])
      && r.value.heap[e] == if st.heap[e]["type"] == Str(h.typeName) && v != Null then st.heap[e][h.rest := v] else st.heap[e]
  {
    PreHopOntoEntity(st, k, h, v, e);
    var f := st.heap[e];
    var next := Pre(st.data.Delete(k), st.heap[e := Deepened(f, h, v)]);
    assert PreStep(st, k, v) == Ok(next);
    KeptKeys(st.heap, e, Deepened(f, h, v));
    assert Deepened(f, h, v) == if f["type"] == Str(h.typeName) && v != Null then f[h.rest := v] else f;
  }

  lemma PreHopOntoEntity(st: Pre, k: string, h: Hop, v: Value, e: Entity)
    requires st.data.Valid() && !Continues(st.data.vals, h, v)
    requires h.local in st.data.vals && st.data.vals[h.local] == Ent(e) && e in st.heap
    ensures PreHop(st, k, h, v) == Ok(Pre(st.data.Delete(k), st.heap[e := Deepened(st.heap[e], h, v)]))
  {
    assert st.data.SetDefault(h.local, Dict(map[])) == st.data;
  }


  /** A turn of the preprocessing leaves every other deep key of the record as it was. */
  lemma PreHopKeepsDeepKeys(st: Pre, k: string, h: Hop, v: Value)
    requires st.data.Valid() && !Deep(h.local) && h.local != k
    ensures var r := PreHop(st, k, h, v);
      && (r.Ok? ==> forall x :: Deep(x) && x != k ==>
            (x in r.value.data.vals <==> x in st.data.vals) &&
            (x in st.data.vals ==> r.value.data.vals[x] == st.data.vals[x]))
      && (r.Ok? && k in r.value.data.vals ==> k in st.data.vals && r.value.data.vals[k] == st.data.vals[k] && v == Null)
  {
    if !Continues(st.data.vals, h, v) {
      var e := st.data.SetDefault(h.local, Dict(map[]));
      DefaultedLocal(st.data, h.local);
      PreIntoShape(Pre(e, st.heap), k, h, v);
      assert PreHop(st, k, h, v) == PreInto(Pre(e, st.heap), k, h, v);
    }
  }

  /** Only a null deep key can survive its own turn, and the other deep keys are untouched by it. */
  lemma PreStepKeepsDeepKeys(st: Pre, k: string, v: Value)
    requires st.data.Valid()
    ensures var r := PreStep(st, k, v);
      && (r.Ok? ==> forall x :: Deep(x) && x != k ==>
            (x in r.value.data.vals <==> x in st.data.vals) &&
            (x in st.data.vals ==> r.value.data.vals[x] == st.data.vals[x]))
      && (r.Ok? && Deep(k) && k in r.value.data.vals ==> k in st.data.vals && r.value.data.vals[k] == st.data.vals[k] && v == Null)
  {
    match ParseHop(k, true)
    case None =>
    case Some(h) =>
      LocalIsPlain(k, h);
      PreHopKeepsDeepKeys(st, k, h, v);
  }

  /**
   * The preprocessing loop over `items` leaves in the record no deep key but
   * null ones, provided each deep key still to be visited holds its item's
   * value and every non-null deep key is still to be visited.
   */
  lemma {:induction false} PreAllLeavesNullDeepKeys(st: Pre, items: seq<(string, Value)>)
    requires st.data.Valid() && DistinctKeys(items)
    requires forall j :: 0 <= j < |items| && Deep(items[j].0) && items[j].0 in st.data.vals ==>
               st.data.vals[items[j].0] == items[j].1
    requires forall x :: x in st.data.vals && Deep(x) && st.data.vals[x] != Null ==> x in Firsts(items)
    ensures var p := PreAll(st, items);
      p.1.None? ==> forall x :: x in p.0.data.vals && Deep(x) ==> p.0.data.vals[x] == Null
    decreases |items|
  {
    if items != [] {
      var k, v := items[0].0, items[0].1;
      var r := PreStep(st, k, v);
      if r.Ok? {
        var next, rest := r.value, items[1..];
        PreStepKeepsDeepKeys(st, k, v);
        FirstsTail(items);
        forall j | 0 <= j < |rest| && Deep(rest[j].0) && rest[j].0 in next.data.vals
          ensures next.data.vals[rest[j].0] == rest[j].1
        {
          assert rest[j] == items[j + 1];
        }
        forall x | x in next.data.vals && Deep(x) && next.data.vals[x] != Null
          ensures x in Firsts(rest)
        {
        }
        PreAllLeavesNullDeepKeys(next, rest);
      }
    }
  }

  /**
   * After the preprocessing of a record succeeds, the only dotted keys left
   * in it are null ones (those the two `continue` branches kept); they reach
   * the assignment loop.
   */
  lemma SurvivingDeepKeysAreNull(H: Heap, data: ODict<Value>)
    requires data.Valid()
    ensures var p := PreAll(Pre(data, H), data.Items());
      p.1.None? ==> forall x :: x in p.0.data.vals && Deep(x) ==> p.0.data.vals[x] == Null
  {
    var items := data.Items();
    ItemsDistinct(data);
    forall x | x in data.vals
      ensures x in Firsts(items)
    {
      var j :| 0 <= j < |data.keys| && data.keys[j] == x;
      assert items[j].0 == x;
    }
    PreAllLeavesNullDeepKeys(Pre(data, H), items);
  }

  // ---------------------------------------------------------------------
  // The override decision and whole merges (sgsession/entity.py:331-361)
  // ---------------------------------------------------------------------

  /** A field name that neither the preprocessing nor `__getitem__` treats as a deep key. */
  predicate Plain(k: string) {
    !Deep(k) && !Dotted(k)
  }

  /** The keys of a record are the field names of its items. */
  lemma ItemsCover(d: ODict<Value>)
    requires d.Valid()
    ensures Firsts(d.Items()) == d.vals.Keys
    ensures forall k :: k in d.vals ==> exists j :: 0 <= j < |d.Items()| && d.Items()[j] == (k, d.vals[k])
  {
    var items := d.Items();
    forall k | k in d.vals
      ensures exists j :: 0 <= j < |items| && items[j] == (k, d.vals[k])
    {
      var j :| 0 <= j < |d.keys| && d.keys[j] == k;
      assert items[j] == (k, d.vals[k]);
    }
  }

  /** A record without deep keys passes the preprocessing unchanged. */
  lemma {:induction false} PlainSkipsPreprocessing(st: Pre, items: seq<(string, Value)>)
    requires st.data.Valid()
    requires forall j :: 0 <= j < |items| ==> !Deep(items[j].0)
    ensures PreAll(st, items) == (st, None)
    decreases |items|
  {
    if items != [] {
      assert PreStep(st, items[0].0, items[0].1) == Ok(st);
      PlainSkipsPreprocessing(st, items[1..]);
    }
  }

  /**
   * After the preprocessing, with plain field names: every field of the
   * record is stored when the decision is to override or the entity lacks
   * it, and keeps its old value otherwise; all other fields and all other
   * entities are unchanged, and nothing fails.
   */
  lemma AppliedFields(H: Heap, R: map<Entity, Backrefs>, self: Entity, d: ODict<Value>, over: Value,
                      context: Option<int>)
    requires d.Valid() && self in H && forall k :: k in d.vals ==> !Dotted(k)
    requires Decide(over, OwnStamp(H, self), Incoming(d), context).Ok?
    ensures var override := Decide(over, OwnStamp(H, self), Incoming(d), context).value;
      var o := Applied(H, R, self, d, over, context);
      && o.error.None? && o.heap.Keys == H.Keys
      && (forall e :: e in H && e != self ==> o.heap[e] == H[e])
      && (forall k :: k in d.vals ==>
            k in o.heap[self] && o.heap[self][k] == if override || k !in H[self] then d.vals[k] else H[self][k])
      && (forall k :: k !in d.vals ==>
            (k in o.heap[self] <==> k in H[self]) && (k in H[self] ==> o.heap[self][k] == H[self][k]))
  {
    var override := Decide(over, OwnStamp(H, self), Incoming(d), context).value;
    var a := AssignAll(H, self, Assigned(H[self], R), d.Items(), override);
    assert FieldsOf(H, self) == H[self];
    assert Applied(H, R, self, d, over, context) == Outcome(H[self := a.fields], a.refs, None);
    RecordAssigned(H, R, self, d, override);
  }

  /** The assignment loop over a whole record of plain keys, field by field. */
  lemma RecordAssigned(H: Heap, R: map<Entity, Backrefs>, self: Entity, d: ODict<Value>, override: bool)
    requires d.Valid() && self in H && forall k :: k in d.vals ==> !Dotted(k)
    ensures var a := AssignAll(H, self, Assigned(H[self], R), d.Items(), override);
      && (forall k :: k in d.vals ==>
            k in a.fields && a.fields[k] == if override || k !in H[self] then d.vals[k] else H[self][k])
      && (forall k :: k !in d.vals ==>
            (k in a.fields <==> k in H[self]) && (k in H[self] ==> a.fields[k] == H[self][k]))
  {
    var items := d.Items();
    ItemsDistinct(d);
    ItemsCover(d);
    var a := AssignAll(H, self, Assigned(H[self], R), items, override);
    AssignAllFields(H, self, Assigned(H[self], R), items, override);
    forall k | k in d.vals
      ensures k in a.fields && a.fields[k] == if override || k !in H[self] then d.vals[k] else H[self][k]
    {
      var j :| 0 <= j < |items| && items[j] == (k, d.vals[k]);
    }
  }

  /** A record whose keys are all plain reaches the assignment loop unchanged. */
  lemma PlainRecord(H: Heap, data: ODict<Value>)
    requires data.Valid() && forall k :: k in data.vals ==> Plain(k)
    ensures PreAll(Pre(data, H), data.Items()) == (Pre(data, H), None)
  {
    var items := data.Items();
    forall j | 0 <= j < |items|
      ensures !Deep(items[j].0)
    {
      assert items[j].0 in data.vals;
    }
    PlainSkipsPreprocessing(Pre(data, H), items);
  }

  /** With plain field names and a well-formed context time, `_update` is the decision and the assignment loop. */
  lemma PlainUpdated(H: Heap, R: map<Entity, Backrefs>, self: Entity, data: ODict<Value>, over: Value,
                     createdAt: Value)
    requires data.Valid() && forall k :: k in data.vals ==> Plain(k)
    requires createdAt == Null || createdAt.Int?
    ensures ExpectTime(createdAt).Ok?
    ensures Updated(H, R, self, data, over, createdAt) == Applied(H, R, self, data, over, ExpectTime(createdAt).value)
  {
    PlainRecord(H, data);
  }

  /**
   * Under `over=None`, when the entity has an `updated_at` of `s` and the
   * record brings a timestamp `t` (its own `updated_at`, else the context
   * time), the record's fields replace the entity's exactly when `t > s`;
   * fields the entity lacks are taken either way.
   */
  lemma NewerRecordWins(H: Heap, R: map<Entity, Backrefs>, self: Entity, data: ODict<Value>, createdAt: Value,
                        s: int, t: int)
    requires data.Valid() && self in H && forall k :: k in data.vals ==> Plain(k)
    requires "updated_at" in H[self] && H[self]["updated_at"] == Int(s)
    requires createdAt == Null || createdAt.Int?
    requires Incoming(data) == Some(Int(t)) || (Incoming(data) == None && createdAt == Int(t))
    ensures var o := Updated(H, R, self, data, Null, createdAt);
      && o.error.None? && self in o.heap
      && forall k :: k in data.vals ==>
           k in o.heap[self] && o.heap[self][k] == if t > s || k !in H[self] then data.vals[k] else H[self][k]
  {
    PlainUpdated(H, R, self, data, Null, createdAt);
    var context := ExpectTime(createdAt).value;
    assert OwnStamp(H, self) == Some(Int(s));
    assert Decide(Null, OwnStamp(H, self), Incoming(data), context) == Ok(t > s);
    AppliedFields(H, R, self, data, Null, context);
  }

  /**
   * Under `over=None`, an entity without `updated_at`, or a record without a
   * timestamp merged with no context time, takes every field of the record.
   */
  lemma UnstampedTakesRecord(H: Heap, R: map<Entity, Backrefs>, self: Entity, data: ODict<Value>, createdAt: Value)
    requires data.Valid() && self in H && forall k :: k in data.vals ==> Plain(k)
    requires createdAt == Null || createdAt.Int?
    requires "updated_at" !in H[self] || (Incoming(data) == None && createdAt == Null)
    ensures var o := Updated(H, R, self, data, Null, createdAt);
      o.error.None? && self in o.heap && forall k :: k in data.vals ==> k in o.heap[self] && o.heap[self][k] == data.vals[k]
  {
    PlainUpdated(H, R, self, data, Null, createdAt);
    var context := ExpectTime(createdAt).value;
    assert Decide(Null, OwnStamp(H, self), Incoming(data), context) == Ok(true);
    AppliedFields(H, R, self, data, Null, context);
  }

  /**
   * A truthy `over` forces every field of the record in; any other value
   * but None keeps every field the entity already has. No timestamp is read.
   */
  lemma ForcedOrDeclined(H: Heap, R: map<Entity, Backrefs>, self: Entity, data: ODict<Value>, over: Value,
                         createdAt: Value)
    requires data.Valid() && self in H && forall k :: k in data.vals ==> Plain(k)
    requires over != Null && (createdAt == Null || createdAt.Int?)
    ensures var o := Updated(H, R, self, data, over, createdAt);
      && o.error.None? && self in o.heap
      && forall k :: k in data.vals ==>
           k in o.heap[self] && o.heap[self][k] == if Truthy(over) || k !in H[self] then data.vals[k] else H[self][k]
  {
    PlainUpdated(H, R, self, data, over, createdAt);
    var context := ExpectTime(createdAt).value;
    assert Decide(over, OwnStamp(H, self), Incoming(data), context) == Ok(Truthy(over));
    AppliedFields(H, R, self, data, over, context);
  }

  /** Without overriding, items whose plain fields are all present assign nothing. */
  lemma {:induction false} AssignAllNoOp(H: Heap, self: Entity, st: Assigned, items: seq<(string, Value)>)
    requires forall j :: 0 <= j < |items| ==> !Dotted(items[j].0) && items[j].0 in st.fields
    ensures AssignAll(H, self, st, items, false) == st
    decreases |items|
  {
    if items != [] {
      PlainLookup(H, self, st.fields, items[0].0);
      assert AssignStep(H, self, st, items[0].0, items[0].1, false) == st;
      AssignAllNoOp(H, self, st, items[1..]);
    }
  }

  /**
   * A merge under `over=None` of a record whose fields the entity already
   * holds, with a timestamp no newer than the entity's, changes nothing.
   */
  lemma StaleRecordChangesNothing(H: Heap, R: map<Entity, Backrefs>, self: Entity, data: ODict<Value>, t: int)
    requires data.Valid() && self in H && forall k :: k in data.vals ==> Plain(k) && k in H[self]
    requires Incoming(data) == Some(Int(t))
    requires "updated_at" in H[self] && H[self]["updated_at"].Int? && H[self]["updated_at"].i >= t
    ensures Updated(H, R, self, data, Null, Null) == Outcome(H, R, None)
  {
    PlainRecord(H, data);
    assert Decide(Null, OwnStamp(H, self), Incoming(data), None) == Ok(false);
    var items := data.Items();
    forall j | 0 <= j < |items|
      ensures !Dotted(items[j].0) && items[j].0 in H[self]
    {
      assert items[j].0 in data.vals;
    }
    AssignAllNoOp(H, self, Assigned(H[self], R), items);
    assert FieldsOf(H, self) == H[self];
    assert H[self := H[self]] == H;
  }

  /**
   * Merging the same timestamped record twice under `over=None`: the second
   * merge changes nothing at all, neither fields nor backrefs.
   */
  lemma UpdateIsIdempotent(H: Heap, R: map<Entity, Backrefs>, self: Entity, data: ODict<Value>, t: int)
    requires data.Valid() && self in H && forall k :: k in data.vals ==> Plain(k)
    requires Incoming(data) == Some(Int(t))
    requires "updated_at" in H[self] ==> H[self]["updated_at"].Int?
    ensures var o1 := Updated(H, R, self, data, Null, Null);
      o1.error.None? && Updated(o1.heap, o1.refs, self, data, Null, Null) == o1
  {
    var o1 := Updated(H, R, self, data, Null, Null);
    if "updated_at" in H[self] {
      NewerRecordWins(H, R, self, data, Null, H[self]["updated_at"].i, t);
    } else {
      UnstampedTakesRecord(H, R, self, data, Null);
    }
    StaleRecordChangesNothing(o1.heap, o1.refs, self, data, t);
  }

  // Order dependence of preprocessing: the two keys `f.T.id` (None) and
  // `f.T.x` (not None) of one record, taken in either order.

  lemma IdKeyIsJoin(h: Hop)
    ensures Join(Hop(h.local, h.typeName, "id")) == IdKey(h.local, h.typeName)
  {
    assert h.local + "." + h.typeName + "." + "id" == h.local + "." + h.typeName + ".id";
  }

  /** The null id item `f.T.id` sets `f` to None. */
  lemma NullIdStep(st: Pre, h: Hop)
    requires st.data.Valid() && WellFormed(h, true)
    ensures var r := PreStep(st, IdKey(h.local, h.typeName), Null);
      r.Ok? && r.value.data.vals == st.data.vals[h.local := Null]
  {
    var hid := Hop(h.local, h.typeName, "id");
    IdKeyIsJoin(h);
    ParseJoin(hid, true);
    NullIdClearsLink(st, IdKey(h.local, h.typeName), hid);
  }

  /** A non-null sibling `f.T.x` of a field `f` the record lacks leaves the record. */
  lemma SiblingStep(st: Pre, h: Hop, v: Value)
    requires st.data.Valid() && WellFormed(h, true) && v != Null && h.local !in st.data.vals
    ensures var r := PreStep(st, Join(h), v);
      r.Ok? && Join(h) !in r.value.data.vals && |Join(h)| > |h.local|
  {
    ParseJoin(h, true);
    DeepValueLandsInDict(st, Join(h), h, v);
  }

  /** A null id first turns the field into None, so the sibling then fails. */
  lemma NullIdThenSiblingFails(st: Pre, h: Hop, v: Value)
    requires st.data.Valid() && WellFormed(h, true) && h.rest != "id" && v != Null
    ensures PreAll(st, [(IdKey(h.local, h.typeName), Null), (Join(h), v)]).1
            == Some(ValueError("Setting deep value on non-dict"))
  {
    var idKey, sibling := IdKey(h.local, h.typeName), Join(h);
    NullIdStep(st, h);
    var s1 := PreStep(st, idKey, Null).value;
    ParseJoin(h, true);
    PreStepFails(s1, sibling, v);
    var items := [(idKey, Null), (sibling, v)];
    assert items[1..] == [(sibling, v)];
    assert PreAll(st, items) == PreAll(s1, items[1..]);
  }

  /**
   * The sibling first lands in a new dict, which the null id then replaces
   * by None: no error, and the sibling's value is gone.
   */
  lemma SiblingThenNullIdDropsSibling(st: Pre, h: Hop, v: Value)
    requires st.data.Valid() && WellFormed(h, true) && h.rest != "id" && v != Null
    requires h.local !in st.data.vals
    ensures var r := PreAll(st, [(Join(h), v), (IdKey(h.local, h.typeName), Null)]);
      && r.1.None?
      && h.local in r.0.data.vals && r.0.data.vals[h.local] == Null
      && Join(h) !in r.0.data.vals
  {
    var idKey, sibling := IdKey(h.local, h.typeName), Join(h);
    SiblingStep(st, h, v);
    var s1 := PreStep(st, sibling, v).value;
    NullIdStep(s1, h);
    var s2 := PreStep(s1, idKey, Null).value;
    var items := [(sibling, v), (idKey, Null)];
    assert items[1..] == [(idKey, Null)];
    assert items[1..][1..] == [];
    assert PreAll(s1, items[1..]) == (s2, None);
  }

  /**
   * Setting `updated_at` to a string that does not parse as a time reaches
   * the `log.exception` call, and `log` is not defined in the module.
   */
  lemma UnparsableStampRaisesNameError()
    ensures StoredAsWritten("updated_at", Str("yesterday")) == Err(NameError("log"))
  {
  }

  /**
   * What `__setitem__` evidently intends for such a value (log it, then store
   * it as given), and what the merge model does: a forced merge of a record
   * whose `updated_at` does not parse keeps that value, with no error.
   */
  lemma UnparsableStampIsKept(H: Heap, R: map<Entity, Backrefs>, self: Entity, data: ODict<Value>, v: Value)
    requires data.Valid() && self in H && forall k :: k in data.vals ==> Plain(k)
    requires "updated_at" in data.vals && data.vals["updated_at"] == v && !v.Int?
    ensures StoredAsWritten("updated_at", v).Err?
    ensures var o := Updated(H, R, self, data, Bool(true), Null);
      o.error.None? && self in o.heap && "updated_at" in o.heap[self] && o.heap[self]["updated_at"] == v
  {
    ForcedOrDeclined(H, R, self, data, Bool(true), Null);
  }
}
