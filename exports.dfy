/**
 * `as_dict` / `_as_dict` of sgsession/entity.py:80-107: convert an entity and
 * everything it links to into plain dicts, expanding each entity the first time
 * it is met and writing only its `minimal` form afterwards.
 */
module Exports {
  import opened Wrappers
  import opened Strings
  import opened Entities

  /**
   * The outcome of one `_as_dict` call: the converted value (or the exception),
   * the `visited` set afterwards, and the entities expanded in full, in order.
   */
  datatype Exported = Exported(out: Result<Value, Error>, visited: set<Entity>, expanded: seq<Entity>)

  predicate NoDup(s: seq<Entity>) {
    forall i, j :: 0 <= i < j < |s| ==> s[i] != s[j]
  }

  /** What termination needs: `visited` only grows, and only by entities of the snapshot. */
  predicate Grows(H: Heap, V: set<Entity>, x: Exported) {
    V <= x.visited && x.visited - V <= H.Keys
  }

  /** The bookkeeping every call keeps: `visited` grows by exactly the entities it expanded, each once. */
  predicate Tracks(H: Heap, V: set<Entity>, x: Exported) {
    && Grows(H, V, x)
    && NoDup(x.expanded)
    && (forall i :: 0 <= i < |x.expanded| ==> x.expanded[i] in x.visited - V)
    && (forall e :: e in x.visited && e !in V ==> e in x.expanded)
  }

  /** Two successive calls compose: the second starts from the `visited` the first left. */
  lemma Chain(H: Heap, V: set<Entity>, x: Exported, y: Exported)
    requires Tracks(H, V, x) && Tracks(H, x.visited, y)
    ensures Tracks(H, V, Exported(y.out, y.visited, x.expanded + y.expanded))
  {
    var s := x.expanded + y.expanded;
    var n := |x.expanded|;
    forall i, j | 0 <= i < j < |s|
      ensures s[i] != s[j]
    {
      if j < n {
        assert s[i] == x.expanded[i] && s[j] == x.expanded[j];
      } else if i < n {
        assert s[i] == x.expanded[i] && s[i] in x.visited;
        assert s[j] == y.expanded[j - n] && s[j] !in x.visited;
      } else {
        assert s[i] == y.expanded[i - n] && s[j] == y.expanded[j - n];
      }
    }
    forall i | 0 <= i < |s|
      ensures s[i] in y.visited - V
    {
      if i < n {
        assert s[i] == x.expanded[i];
      } else {
        assert s[i] == y.expanded[i - n];
      }
    }
    forall e | e in y.visited && e !in V
      ensures e in s
    {
      if e in x.visited {
        assert e in x.expanded;
      } else {
        assert e in y.expanded;
      }
    }
  }

  /** The order of `sorted(obj.iteritems())`: the keys in increasing order. */
  function ItemOrder(m: map<string, Value>): (r: seq<string>)
    ensures forall j :: 0 <= j < |r| ==> r[j] in m
  {
    SortedKeys(m.Keys)
  }

  /** `_as_dict(v, visited)` over the snapshot `H`. */
  function Export(H: Heap, v: Value, V: set<Entity>): (x: Exported)
    requires Coherent(H) && Within(v, H.Keys)
    ensures Grows(H, V, x)
    decreases H.Keys - V, v, 1, 0
  {
    match v
    case List(xs) => ExportSeq(H, v, 0, V, [])
    case Tuple(xs) => ExportSeq(H, v, 0, V, [])
    case Dict(m) => ExportEntries(H, v, ItemOrder(m), 0, V, map[])
    case Ent(e) =>
      ExportEntity(H, e, V)
    case _ => Exported(Ok(v), V, [])
  }

  /** An entity: unhashable, already visited (minimal form), or expanded now. */
  function ExportEntity(H: Heap, e: Entity, V: set<Entity>): (x: Exported)
    requires Coherent(H) && e in H
    ensures Grows(H, V, x)
    decreases H.Keys - V, Ent(e), 0, 0
  {
    if HashOf(H[e]).Err? then Exported(Err(HashOf(H[e]).error), V, [])
    else if e in V then Exported(Ok(Dict(MinimalOf(H[e]))), V, [])
    else
      var y := ExportEntries(H, Dict(H[e]), ItemOrder(H[e]), 0, V + {e}, map[]);
      Exported(y.out, y.visited, [e] + y.expanded)
  }

  /** The list comprehension over a list or tuple `owner`, from position `i` on; `acc` holds the earlier results. */
  function ExportSeq(H: Heap, owner: Value, i: nat, V: set<Entity>, acc: seq<Value>): (x: Exported)
    requires Coherent(H) && (owner.List? || owner.Tuple?) && Within(owner, H.Keys) && i <= |owner.items|
    ensures Grows(H, V, x)
    decreases H.Keys - V, owner, 0, |owner.items| - i
  {
    if i == |owner.items| then Exported(Ok(List(acc)), V, [])
    else
      var y := Export(H, owner.items[i], V);
      if y.out.Err? then y
      else
        var z := ExportSeq(H, owner, i + 1, y.visited, acc + [y.out.value]);
        Exported(z.out, z.visited, y.expanded + z.expanded)
  }

  /** The loop over the sorted items of the dict or entity fields `owner`, from position `i` on. */
  function ExportEntries(H: Heap, owner: Value, keys: seq<string>, i: nat, V: set<Entity>,
                         acc: map<string, Value>): (x: Exported)
    requires Coherent(H) && owner.Dict? && Within(owner, H.Keys) && i <= |keys|
    requires forall j :: 0 <= j < |keys| ==> keys[j] in owner.entries
    ensures Grows(H, V, x)
    decreases H.Keys - V, owner, 0, |keys| - i
  {
    if i == |keys| then Exported(Ok(Dict(acc)), V, [])
    else
      var y := Export(H, owner.entries[keys[i]], V);
      if y.out.Err? then y
      else
        var z := ExportEntries(H, owner, keys, i + 1, y.visited, acc[keys[i] := y.out.value]);
        Exported(z.out, z.visited, y.expanded + z.expanded)
  }

  /** One step of the list comprehension: the result from `i` on is the result from `i + 1` on after `owner.items[i]`. */
  lemma SeqStep(H: Heap, owner: Value, i: nat, V: set<Entity>, acc: seq<Value>, y: Result<Value, Error>, v: set<Entity>)
    requires Coherent(H) && (owner.List? || owner.Tuple?) && Within(owner, H.Keys) && i < |owner.items|
    requires y == Export(H, owner.items[i], V).out && v == Export(H, owner.items[i], V).visited
    ensures y.Err? ==> ExportSeq(H, owner, i, V, acc).out == y && ExportSeq(H, owner, i, V, acc).visited == v
    ensures y.Ok? ==>
              ExportSeq(H, owner, i, V, acc).out == ExportSeq(H, owner, i + 1, v, acc + [y.value]).out &&
              ExportSeq(H, owner, i, V, acc).visited == ExportSeq(H, owner, i + 1, v, acc + [y.value]).visited
  {
  }

  /** One step of the loop over sorted items. */
  lemma EntriesStep(H: Heap, owner: Value, keys: seq<string>, i: nat, V: set<Entity>, acc: map<string, Value>,
                    y: Result<Value, Error>, v: set<Entity>)
    requires Coherent(H) && owner.Dict? && Within(owner, H.Keys) && i < |keys|
    requires forall j :: 0 <= j < |keys| ==> keys[j] in owner.entries
    requires y == Export(H, owner.entries[keys[i]], V).out && v == Export(H, owner.entries[keys[i]], V).visited
    ensures y.Err? ==> ExportEntries(H, owner, keys, i, V, acc).out == y && ExportEntries(H, owner, keys, i, V, acc).visited == v
    ensures y.Ok? ==>
              ExportEntries(H, owner, keys, i, V, acc).out == ExportEntries(H, owner, keys, i + 1, v, acc[keys[i] := y.value]).out &&
              ExportEntries(H, owner, keys, i, V, acc).visited == ExportEntries(H, owner, keys, i + 1, v, acc[keys[i] := y.value]).visited
  {
  }

  /** `_as_dict(obj, visited)` on the live objects; returns the result and the grown `visited`. */
  method ExportValue(obj: Value, visited: set<Entity>, ghost U: set<Entity>) returns (r: Result<Value, Error>, after: set<Entity>)
    requires Coherent(View(U)) && Within(obj, U)
    ensures r == Export(View(U), obj, visited).out
    ensures after == Export(View(U), obj, visited).visited
    decreases U - visited, obj, 1
  {
    match obj
    case List(xs) =>
      r, after := ExportItems(obj, visited, U);
    case Tuple(xs) =>
      r, after := ExportItems(obj, visited, U);
    case Dict(m) =>
      r, after := ExportFields(obj, ItemOrder(m), visited, U);
    case Ent(e) =>
      var h := e.Hash();
      if h.Err? {
        return Err(h.error), visited;
      }
      if e in visited {
        return Ok(Dict(e.Minimal())), visited;
      }
      r, after := ExportFields(Dict(e.fields), ItemOrder(e.fields), visited + {e}, U);
    case _ =>
      r, after := Ok(obj), visited;
  }

  /** An item of a list or tuple links only where the list does. */
  lemma ItemWithin(owner: Value, i: nat, S: set<Entity>)
    requires (owner.List? || owner.Tuple?) && Within(owner, S) && i < |owner.items|
    ensures Within(owner.items[i], S)
  {
  }

  /** The list comprehension of `_as_dict` over a list or tuple. */
  method ExportItems(owner: Value, visited: set<Entity>, ghost U: set<Entity>) returns (r: Result<Value, Error>, after: set<Entity>)
    requires Coherent(View(U)) && (owner.List? || owner.Tuple?) && Within(owner, U)
    ensures r == ExportSeq(View(U), owner, 0, visited, []).out
    ensures after == ExportSeq(View(U), owner, 0, visited, []).visited
    decreases U - visited, owner, 0
  {
    ghost var H := View(U);
    ghost var goal := ExportSeq(H, owner, 0, visited, []);
    var xs := owner.items;
    var acc: seq<Value> := [];
    after := visited;
    var i := 0;
    while i < |xs|
      invariant 0 <= i <= |xs|
      invariant visited <= after && after - visited <= U
      invariant goal.out == ExportSeq(H, owner, i, after, acc).out
      invariant goal.visited == ExportSeq(H, owner, i, after, acc).visited
    {
      ItemWithin(owner, i, U);
      var y, v := ExportValue(xs[i], after, U);
      SeqStep(H, owner, i, after, acc, y, v);
      if y.Err? {
        return y, v;
      }
      acc, after := acc + [y.value], v;
      i := i + 1;
    }
    r := Ok(List(acc));
  }

  /** The loop of `_as_dict` over the items of a dict or of an entity's fields, in the order `keys`. */
  method ExportFields(owner: Value, keys: seq<string>, visited: set<Entity>, ghost U: set<Entity>) returns (r: Result<Value, Error>, after: set<Entity>)
    requires Coherent(View(U)) && owner.Dict? && Within(owner, U)
    requires forall j :: 0 <= j < |keys| ==> keys[j] in owner.entries
    ensures r == ExportEntries(View(U), owner, keys, 0, visited, map[]).out
    ensures after == ExportEntries(View(U), owner, keys, 0, visited, map[]).visited
    decreases U - visited, owner, 0
  {
    ghost var H := View(U);
    var m := owner.entries;
    ghost var goal := ExportEntries(H, owner, keys, 0, visited, map[]);
    var acc: map<string, Value> := map[];
    after := visited;
    var i := 0;
    while i < |keys|
      invariant 0 <= i <= |keys|
      invariant visited <= after && after - visited <= U
      invariant goal.out == ExportEntries(H, owner, keys, i, after, acc).out
      invariant goal.visited == ExportEntries(H, owner, keys, i, after, acc).visited
    {
      var x := m[keys[i]];
      assert Within(x, U);
      var y, v := ExportValue(x, after, U);
      EntriesStep(H, owner, keys, i, after, acc, y, v);
      if y.Err? {
        return y, v;
      }
      acc, after := acc[keys[i] := y.value], v;
      i := i + 1;
    }
    r := Ok(Dict(acc));
  }

  /** `as_dict`: the entity and everything it links to, as plain dicts. */
  method AsDict(self: Entity, ghost U: set<Entity>) returns (r: Result<Value, Error>)
    requires self in U && Coherent(View(U))
    ensures r == Export(View(U), Ent(self), {}).out
  {
    var visited;
    r, visited := ExportValue(Ent(self), {}, U);
  }
}
