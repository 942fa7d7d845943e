/**
 * What `as_dict` promises: the output holds no entity, each entity is written
 * out in full at most once (cycles end in a `minimal` form), plain data passes
 * through unchanged, and converting the output again gives it back.
 */
module ExportProperties {
  import opened Wrappers
  import opened Strings
  import opened Entities
  import opened Exports

  /** Data `as_dict` can produce: no entity and no tuple anywhere inside. */
  predicate PlainData(v: Value) {
    match v
    case List(xs) => forall i :: 0 <= i < |xs| ==> PlainData(xs[i])
    case Dict(m) => forall k :: k in m ==> PlainData(m[k])
    case Tuple(_) => false
    case Ent(_) => false
    case _ => true
  }

  /** Every `type` and `id` in the snapshot is plain data (so `minimal` forms are too). */
  predicate IdentitiesPlain(H: Heap) {
    forall e :: e in H && "type" in H[e] && "id" in H[e] ==> PlainData(H[e]["type"]) && PlainData(H[e]["id"])
  }

  lemma {:induction false} PlainWithin(v: Value, S: set<Entity>)
    requires PlainData(v)
    ensures Within(v, S)
  {
    match v
    case List(xs) =>
      forall i | 0 <= i < |xs|
        ensures Within(xs[i], S)
      {
        PlainWithin(xs[i], S);
      }
    case Dict(m) =>
      forall k | k in m
        ensures Within(m[k], S)
      {
        PlainWithin(m[k], S);
      }
    case _ =>
  }

  /**
   * One `_as_dict` call: `visited` grows by exactly the entities it expanded,
   * each expanded once, and (when identities are plain) a successful result
   * holds no entity.
   */
  lemma {:induction false} ExportWellBehaved(H: Heap, v: Value, V: set<Entity>)
    requires Coherent(H) && Within(v, H.Keys)
    ensures Tracks(H, V, Export(H, v, V))
    ensures IdentitiesPlain(H) && Export(H, v, V).out.Ok? ==> PlainData(Export(H, v, V).out.value)
    decreases H.Keys - V, v, 1, 0
  {
    match v
    case List(_) => SeqWellBehaved(H, v, 0, V, []);
    case Tuple(_) => SeqWellBehaved(H, v, 0, V, []);
    case Dict(m) => EntriesWellBehaved(H, v, ItemOrder(m), 0, V, map[]);
    case Ent(e) => EntityWellBehaved(H, e, V);
    case _ =>
  }

  lemma {:induction false} EntityWellBehaved(H: Heap, e: Entity, V: set<Entity>)
    requires Coherent(H) && e in H
    ensures Tracks(H, V, ExportEntity(H, e, V))
    ensures IdentitiesPlain(H) && ExportEntity(H, e, V).out.Ok? ==> PlainData(ExportEntity(H, e, V).out.value)
    decreases H.Keys - V, Ent(e), 0, 0
  {
    if HashOf(H[e]).Err? {
    } else if e in V {
      if IdentitiesPlain(H) {
        var m := MinimalOf(H[e]);
        assert PlainData(H[e]["type"]) && PlainData(H[e]["id"]);
        assert forall k :: k in m ==> PlainData(m[k]);
      }
    } else {
      var y := ExportEntries(H, Dict(H[e]), ItemOrder(H[e]), 0, V + {e}, map[]);
      EntriesWellBehaved(H, Dict(H[e]), ItemOrder(H[e]), 0, V + {e}, map[]);
      Prepend(H, V, e, y);
    }
  }

  /** Expanding `e` itself before a call that started with `e` visited. */
  lemma Prepend(H: Heap, V: set<Entity>, e: Entity, y: Exported)
    requires e in H && e !in V && Tracks(H, V + {e}, y)
    ensures Tracks(H, V, Exported(y.out, y.visited, [e] + y.expanded))
  {
    var s := [e] + y.expanded;
    forall i, j | 0 <= i < j < |s|
      ensures s[i] != s[j]
    {
      assert s[j] == y.expanded[j - 1];
      if i == 0 {
        assert s[j] in y.visited - (V + {e});
      } else {
        assert s[i] == y.expanded[i - 1];
      }
    }
    forall i | 0 <= i < |s|
      ensures s[i] in y.visited - V
    {
      if i > 0 {
        assert s[i] == y.expanded[i - 1];
      }
    }
  }

  /** The list comprehension: same length as the input, plain items. */
  lemma {:induction false} SeqWellBehaved(H: Heap, owner: Value, i: nat, V: set<Entity>, acc: seq<Value>)
    requires Coherent(H) && (owner.List? || owner.Tuple?) && Within(owner, H.Keys) && i <= |owner.items|
    ensures Tracks(H, V, ExportSeq(H, owner, i, V, acc))
    ensures ExportSeq(H, owner, i, V, acc).out.Ok? ==>
              ExportSeq(H, owner, i, V, acc).out.value.List? &&
              |ExportSeq(H, owner, i, V, acc).out.value.items| == |acc| + |owner.items| - i
    ensures IdentitiesPlain(H) && (forall j :: 0 <= j < |acc| ==> PlainData(acc[j])) && ExportSeq(H, owner, i, V, acc).out.Ok? ==>
              PlainData(ExportSeq(H, owner, i, V, acc).out.value)
    decreases H.Keys - V, owner, 0, |owner.items| - i
  {
    if i < |owner.items| {
      var y := Export(H, owner.items[i], V);
      ExportWellBehaved(H, owner.items[i], V);
      if y.out.Ok? {
        var acc' := acc + [y.out.value];
        SeqWellBehaved(H, owner, i + 1, y.visited, acc');
        var z := ExportSeq(H, owner, i + 1, y.visited, acc');
        Chain(H, V, y, z);
        if IdentitiesPlain(H) && (forall j :: 0 <= j < |acc| ==> PlainData(acc[j])) {
          assert forall j :: 0 <= j < |acc'| ==> PlainData(acc'[j]);
        }
      }
    }
  }

  /** The loop over sorted items: the result has exactly the input's keys, with plain values. */
  lemma {:induction false} EntriesWellBehaved(H: Heap, owner: Value, keys: seq<string>, i: nat, V: set<Entity>,
                                               acc: map<string, Value>)
    requires Coherent(H) && owner.Dict? && Within(owner, H.Keys) && i <= |keys|
    requires forall j :: 0 <= j < |keys| ==> keys[j] in owner.entries
    ensures Tracks(H, V, ExportEntries(H, owner, keys, i, V, acc))
    ensures ExportEntries(H, owner, keys, i, V, acc).out.Ok? ==>
              ExportEntries(H, owner, keys, i, V, acc).out.value.Dict? &&
              forall k :: k in ExportEntries(H, owner, keys, i, V, acc).out.value.entries <==> k in acc || k in keys[i..]
    ensures IdentitiesPlain(H) && (forall k :: k in acc ==> PlainData(acc[k])) && ExportEntries(H, owner, keys, i, V, acc).out.Ok? ==>
              PlainData(ExportEntries(H, owner, keys, i, V, acc).out.value)
    decreases H.Keys - V, owner, 0, |keys| - i
  {
    if i < |keys| {
      var y := Export(H, owner.entries[keys[i]], V);
      ExportWellBehaved(H, owner.entries[keys[i]], V);
      if y.out.Ok? {
        var acc' := acc[keys[i] := y.out.value];
        EntriesWellBehaved(H, owner, keys, i + 1, y.visited, acc');
        var z := ExportEntries(H, owner, keys, i + 1, y.visited, acc');
        Chain(H, V, y, z);
        assert forall k :: k in keys[i..] <==> k == keys[i] || k in keys[i + 1..] by {
          assert keys[i..] == [keys[i]] + keys[i + 1..];
        }
      }
    }
  }

  lemma ItemOrderCovers(m: map<string, Value>)
    ensures forall k :: k in m ==> k in ItemOrder(m)
  {
  }

  /** `as_dict` leaves plain data as it is and visits nothing. */
  lemma {:induction false} ExportOfPlain(H: Heap, v: Value, V: set<Entity>)
    requires Coherent(H) && PlainData(v)
    ensures Within(v, H.Keys) && Export(H, v, V) == Exported(Ok(v), V, [])
    decreases v, 1
  {
    PlainWithin(v, H.Keys);
    match v
    case List(xs) =>
      SeqOfPlain(H, v, 0, V, []);
      assert [] + xs[0..] == xs;
    case Dict(m) =>
      EntriesOfPlain(H, v, ItemOrder(m), 0, V, map[]);
      ItemOrderCovers(m);
      AllKeys(m, ItemOrder(m));
    case _ =>
  }

  lemma {:induction false} SeqOfPlain(H: Heap, owner: Value, i: nat, V: set<Entity>, acc: seq<Value>)
    requires Coherent(H) && owner.List? && PlainData(owner) && i <= |owner.items|
    ensures Within(owner, H.Keys)
    ensures ExportSeq(H, owner, i, V, acc) == Exported(Ok(List(acc + owner.items[i..])), V, [])
    decreases owner, 0, |owner.items| - i
  {
    PlainWithin(owner, H.Keys);
    if i < |owner.items| {
      ExportOfPlain(H, owner.items[i], V);
      SeqOfPlain(H, owner, i + 1, V, acc + [owner.items[i]]);
      assert acc + [owner.items[i]] + owner.items[i + 1..] == acc + owner.items[i..];
    } else {
      assert acc + owner.items[i..] == acc;
    }
  }

  lemma {:induction false} EntriesOfPlain(H: Heap, owner: Value, keys: seq<string>, i: nat, V: set<Entity>,
                                           acc: map<string, Value>)
    requires Coherent(H) && owner.Dict? && PlainData(owner) && i <= |keys|
    requires forall j :: 0 <= j < |keys| ==> keys[j] in owner.entries
    ensures Within(owner, H.Keys)
    ensures ExportEntries(H, owner, keys, i, V, acc)
         == Exported(Ok(Dict(acc + Picked(owner.entries, keys[i..]))), V, [])
    decreases owner, 0, |keys| - i
  {
    PlainWithin(owner, H.Keys);
    var m := owner.entries;
    if i < |keys| {
      ExportOfPlain(H, m[keys[i]], V);
      EntriesOfPlain(H, owner, keys, i + 1, V, acc[keys[i] := m[keys[i]]]);
      OneMoreKey(acc, m, keys, i);
    } else {
      assert keys[i..] == [];
      assert acc + Picked(m, []) == acc;
    }
  }

  /** The entries of `m` under the keys listed in `ks`. */
  function Picked(m: map<string, Value>, ks: seq<string>): map<string, Value> {
    map k | k in ks && k in m :: m[k]
  }

  lemma AllKeys(m: map<string, Value>, keys: seq<string>)
    requires forall k :: k in m ==> k in keys
    requires forall j :: 0 <= j < |keys| ==> keys[j] in m
    ensures map[] + Picked(m, keys[0..]) == m
  {
    assert keys[0..] == keys;
  }

  lemma OneMoreKey(acc: map<string, Value>, m: map<string, Value>, keys: seq<string>, i: nat)
    requires i < |keys| && forall j :: 0 <= j < |keys| ==> keys[j] in m
    ensures acc[keys[i] := m[keys[i]]] + Picked(m, keys[i + 1..])
         == acc + Picked(m, keys[i..])
  {
    assert keys[i..] == [keys[i]] + keys[i + 1..];
  }

  /** Converting the output of `as_dict` again gives the same output: it is a fixed point. */
  lemma ExportIdempotent(H: Heap, v: Value)
    requires Coherent(H) && Within(v, H.Keys) && IdentitiesPlain(H)
    requires Export(H, v, {}).out.Ok?
    ensures PlainData(Export(H, v, {}).out.value)
    ensures Within(Export(H, v, {}).out.value, H.Keys)
    ensures Export(H, Export(H, v, {}).out.value, {}).out == Export(H, v, {}).out
  {
    ExportWellBehaved(H, v, {});
    PlainWithin(Export(H, v, {}).out.value, H.Keys);
    ExportOfPlain(H, Export(H, v, {}).out.value, {});
  }

  /** The entries loop keeps an earlier result under a key it does not meet again. */
  lemma {:induction false} EntriesKeep(H: Heap, owner: Value, keys: seq<string>, i: nat, V: set<Entity>,
                                        acc: map<string, Value>, k: string)
    requires Coherent(H) && owner.Dict? && Within(owner, H.Keys) && i <= |keys|
    requires forall j :: 0 <= j < |keys| ==> keys[j] in owner.entries
    requires k in acc && k !in keys[i..]
    ensures ExportEntries(H, owner, keys, i, V, acc).out.Ok? ==>
              ExportEntries(H, owner, keys, i, V, acc).out.value.Dict? &&
              k in ExportEntries(H, owner, keys, i, V, acc).out.value.entries &&
              ExportEntries(H, owner, keys, i, V, acc).out.value.entries[k] == acc[k]
    decreases |keys| - i
  {
    if i < |keys| {
      var y := Export(H, owner.entries[keys[i]], V);
      if y.out.Ok? {
        assert keys[i..] == [keys[i]] + keys[i + 1..];
        EntriesKeep(H, owner, keys, i + 1, y.visited, acc[keys[i] := y.out.value], k);
      }
    }
  }

  /**
   * In the entries loop, the result under a key it meets is the conversion of
   * that key's value, started from a `visited` set that contains the initial one.
   */
  lemma {:induction false} EntriesValueAt(H: Heap, owner: Value, keys: seq<string>, i: nat, V: set<Entity>,
                                           acc: map<string, Value>, k: string)
    requires Coherent(H) && owner.Dict? && Within(owner, H.Keys) && i <= |keys|
    requires forall j :: 0 <= j < |keys| ==> keys[j] in owner.entries
    requires k in keys[i..]
    ensures ExportEntries(H, owner, keys, i, V, acc).out.Ok? ==>
              ExportEntries(H, owner, keys, i, V, acc).out.value.Dict? &&
              k in ExportEntries(H, owner, keys, i, V, acc).out.value.entries &&
              exists W :: V <= W && Export(H, owner.entries[k], W).out ==
                Ok(ExportEntries(H, owner, keys, i, V, acc).out.value.entries[k])
    decreases |keys| - i
  {
    var x := ExportEntries(H, owner, keys, i, V, acc);
    var y := Export(H, owner.entries[keys[i]], V);
    if y.out.Ok? {
      var acc' := acc[keys[i] := y.out.value];
      assert keys[i..] == [keys[i]] + keys[i + 1..];
      if k in keys[i + 1..] {
        EntriesValueAt(H, owner, keys, i + 1, y.visited, acc', k);
        EntriesWellBehaved(H, owner, keys, i + 1, y.visited, acc');
        ExportWellBehaved(H, owner.entries[keys[i]], V);
        if x.out.Ok? {
          var W :| y.visited <= W && Export(H, owner.entries[k], W).out == Ok(x.out.value.entries[k]);
          assert V <= W;
        }
      } else {
        assert k == keys[i];
        EntriesKeep(H, owner, keys, i + 1, y.visited, acc', k);
        if x.out.Ok? {
          assert Export(H, owner.entries[k], V).out == Ok(x.out.value.entries[k]);
        }
      }
    }
  }

  /** The list comprehension keeps the earlier results `acc` as the head of its output. */
  lemma {:induction false} SeqPrefix(H: Heap, owner: Value, i: nat, V: set<Entity>, acc: seq<Value>)
    requires Coherent(H) && (owner.List? || owner.Tuple?) && Within(owner, H.Keys) && i <= |owner.items|
    ensures var x := ExportSeq(H, owner, i, V, acc);
      x.out.Ok? ==> x.out.value.List? && |x.out.value.items| == |acc| + |owner.items| - i &&
                    x.out.value.items[..|acc|] == acc
    decreases |owner.items| - i
  {
    if i < |owner.items| {
      var y := Export(H, owner.items[i], V);
      if y.out.Ok? {
        var acc' := acc + [y.out.value];
        SeqPrefix(H, owner, i + 1, y.visited, acc');
        var x := ExportSeq(H, owner, i + 1, y.visited, acc');
        if x.out.Ok? {
          assert x.out.value.items[..|acc|] == x.out.value.items[..|acc'|][..|acc|];
        }
      }
    }
  }

  /** The list comprehension's output at position `|acc|` is the conversion of item `i`. */
  lemma SeqHeadValue(H: Heap, owner: Value, i: nat, V: set<Entity>, acc: seq<Value>)
    requires Coherent(H) && (owner.List? || owner.Tuple?) && Within(owner, H.Keys) && i < |owner.items|
    ensures var x := ExportSeq(H, owner, i, V, acc);
      x.out.Ok? ==> x.out.value.List? && |acc| < |x.out.value.items| &&
                    Export(H, owner.items[i], V).out == Ok(x.out.value.items[|acc|])
  {
    ItemWithin(owner, i, H.Keys);
    var y := Export(H, owner.items[i], V);
    if y.out.Ok? {
      var acc' := acc + [y.out.value];
      SeqPrefix(H, owner, i + 1, y.visited, acc');
      var x := ExportSeq(H, owner, i + 1, y.visited, acc');
      if x.out.Ok? {
        assert x.out.value.items[|acc|] == x.out.value.items[..|acc'|][|acc|];
      }
    }
  }

  /**
   * In the list comprehension, position `j` of the output holds the conversion
   * of item `j` of the input, started from a `visited` set `W` that contains
   * the initial one.
   */
  lemma {:induction false} SeqValueAt(H: Heap, owner: Value, i: nat, V: set<Entity>, acc: seq<Value>, j: nat)
    returns (W: set<Entity>)
    requires Coherent(H) && (owner.List? || owner.Tuple?) && Within(owner, H.Keys) && i <= j < |owner.items|
    ensures var x := ExportSeq(H, owner, i, V, acc);
      x.out.Ok? ==> x.out.value.List? && |acc| + j - i < |x.out.value.items| &&
                    V <= W && Export(H, owner.items[j], W).out == Ok(x.out.value.items[|acc| + j - i])
    decreases |owner.items| - i
  {
    W := V;
    if j == i {
      SeqHeadValue(H, owner, i, V, acc);
    } else {
      ItemWithin(owner, i, H.Keys);
      var y := Export(H, owner.items[i], V);
      if y.out.Ok? {
        W := SeqValueAt(H, owner, i + 1, y.visited, acc + [y.out.value], j);
      }
    }
  }

  /** Each item of a converted list or tuple is the conversion of the matching input item. */
  lemma ListItemsConverted(H: Heap, owner: Value, V: set<Entity>, j: nat)
    requires Coherent(H) && (owner.List? || owner.Tuple?) && Within(owner, H.Keys) && j < |owner.items|
    requires Export(H, owner, V).out.Ok?
    ensures Export(H, owner, V).out.value.List? && |Export(H, owner, V).out.value.items| == |owner.items|
    ensures exists W :: V <= W && Export(H, owner.items[j], W).out == Ok(Export(H, owner, V).out.value.items[j])
  {
    ItemWithin(owner, j, H.Keys);
    var x := ExportSeq(H, owner, 0, V, []);
    assert Export(H, owner, V) == x;
    SeqPrefix(H, owner, 0, V, []);
    var W := SeqValueAt(H, owner, 0, V, [], j);
    assert Export(H, owner.items[j], W).out == Ok(x.out.value.items[j]);
  }

  /** An entity already visited is written as its minimal form. */
  lemma VisitedIsMinimal(H: Heap, e: Entity, W: set<Entity>)
    requires Coherent(H) && e in H && e in W && HashOf(H[e]).Ok?
    ensures Export(H, Ent(e), W) == Exported(Ok(Dict(MinimalOf(H[e]))), W, [])
  {
  }

  /** An entity met for the first time is expanded over its sorted fields. */
  lemma ExpandFirst(H: Heap, e: Entity, V: set<Entity>)
    requires Coherent(H) && e in H && e !in V && HashOf(H[e]).Ok?
    ensures Export(H, Ent(e), V)
         == var y := ExportEntries(H, Dict(H[e]), ItemOrder(H[e]), 0, V + {e}, map[]);
            Exported(y.out, y.visited, [e] + y.expanded)
  {
  }

  /**
   * A field of an entity expanded now is the conversion of the field's value,
   * started with that entity (and everything visited before) visited.
   */
  lemma FieldOfExpansion(H: Heap, e: Entity, V: set<Entity>, k: string)
    requires Coherent(H) && e in H && e !in V && k in H[e]
    requires Export(H, Ent(e), V).out.Ok?
    ensures Export(H, Ent(e), V).out.value.Dict?
    ensures k in Export(H, Ent(e), V).out.value.entries
    ensures exists W :: V + {e} <= W && Export(H, H[e][k], W).out == Ok(Export(H, Ent(e), V).out.value.entries[k])
  {
    assert HashOf(H[e]).Ok?;
    ExpandFirst(H, e, V);
    var keys := ItemOrder(H[e]);
    ItemOrderCovers(H[e]);
    assert keys[0..] == keys;
    EntriesValueAt(H, Dict(H[e]), keys, 0, V + {e}, map[], k);
  }

  /**
   * Cycle safety: an entity that links to itself is expanded once, and the
   * link inside the expansion is its minimal form.
   */
  lemma SelfLinkIsMinimal(H: Heap, a: Entity, k: string)
    requires Coherent(H) && a in H && k in H[a] && H[a][k] == Ent(a)
    requires Export(H, Ent(a), {}).out.Ok?
    ensures Export(H, Ent(a), {}).out.value.Dict?
    ensures k in Export(H, Ent(a), {}).out.value.entries
    ensures Export(H, Ent(a), {}).out.value.entries[k] == Dict(MinimalOf(H[a]))
  {
    FieldOfExpansion(H, a, {}, k);
    var out := Export(H, Ent(a), {}).out.value;
    var W :| {} + {a} <= W && Export(H, Ent(a), W).out == Ok(out.entries[k]);
    VisitedIsMinimal(H, a, W);
  }

  /**
   * Cycle safety for two entities linking to each other: inside the expansion of
   * `a`, its link to `b` is either `b`'s minimal form (already visited) or `b`
   * expanded with its link back to `a` in `a`'s minimal form.
   */
  lemma LinkBackIsMinimal(H: Heap, a: Entity, b: Entity, k: string, j: string)
    requires Coherent(H) && a in H && b in H
    requires k in H[a] && H[a][k] == Ent(b) && j in H[b] && H[b][j] == Ent(a)
    requires Export(H, Ent(a), {}).out.Ok?
    ensures Export(H, Ent(a), {}).out.value.Dict?
    ensures k in Export(H, Ent(a), {}).out.value.entries
    ensures var link := Export(H, Ent(a), {}).out.value.entries[k];
            link == Dict(MinimalOf(H[b])) ||
            (link.Dict? && j in link.entries && link.entries[j] == Dict(MinimalOf(H[a])))
  {
    FieldOfExpansion(H, a, {}, k);
    var link := Export(H, Ent(a), {}).out.value.entries[k];
    var W :| {} + {a} <= W && Export(H, Ent(b), W).out == Ok(link);
    if b in W {
      VisitedIsMinimal(H, b, W);
    } else {
      LinkBackInside(H, a, b, W, j);
    }
  }

  lemma LinkBackInside(H: Heap, a: Entity, b: Entity, W: set<Entity>, j: string)
    requires Coherent(H) && b in H && a in W && b !in W && j in H[b] && H[b][j] == Ent(a)
    requires Export(H, Ent(b), W).out.Ok?
    ensures Export(H, Ent(b), W).out.value.Dict?
    ensures j in Export(H, Ent(b), W).out.value.entries
    ensures Export(H, Ent(b), W).out.value.entries[j] == Dict(MinimalOf(H[a]))
  {
    FieldOfExpansion(H, b, W, j);
    var link := Export(H, Ent(b), W).out.value;
    var W2 :| W + {b} <= W2 && Export(H, Ent(a), W2).out == Ok(link.entries[j]);
    VisitedIsMinimal(H, a, W2);
  }
}
