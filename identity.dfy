/**
 * Identity rules of sgsession/entity.py: `cache_key` (42-52), `__hash__`
 * (125-130), `is_same_entity` (75-78) and the `exists` short-circuit (212-213).
 */
module IdentityProperties {
  import opened Wrappers
  import opened Entities

  /** The hash depends on `type` and `id` only: changing any other field leaves it as it was. */
  lemma HashIgnoresOtherFields(f: Fields, k: string, v: Value)
    requires k != "type" && k != "id"
    ensures HashOf(f[k := v]) == HashOf(f)
  {
    assert RawGet(f[k := v], "type") == RawGet(f, "type");
    assert RawGet(f[k := v], "id") == RawGet(f, "id");
  }

  /** Two field sets with the same identity hash the same pair, and two hashable ones with equal hashed pairs are the same entity. */
  lemma HashIsIdentity(f: Fields, g: Fields)
    ensures SameIdentity(f, g) ==> HashOf(f) == HashOf(g)
    ensures HashOf(f).Ok? && HashOf(f) == HashOf(g) ==> SameIdentity(f, g)
  {
  }

  /** `is_same_entity` ignores every field but `type` and `id`, on either side. */
  lemma SameIdentityIgnoresOtherFields(f: Fields, g: Fields, k: string, v: Value)
    requires k != "type" && k != "id"
    ensures SameIdentity(f[k := v], g) == SameIdentity(f, g)
    ensures SameIdentity(f, g[k := v]) == SameIdentity(f, g)
  {
    assert RawGet(f[k := v], "type") == RawGet(f, "type") && RawGet(f[k := v], "id") == RawGet(f, "id");
    assert RawGet(g[k := v], "type") == RawGet(g, "type") && RawGet(g[k := v], "id") == RawGet(g, "id");
  }

  /** `is_same_entity` is an equivalence: reflexive, symmetric and transitive. */
  lemma SameIdentityIsEquivalence(f: Fields, g: Fields, h: Fields)
    ensures SameIdentity(f, f)
    ensures SameIdentity(f, g) ==> SameIdentity(g, f)
    ensures SameIdentity(f, g) && SameIdentity(g, h) ==> SameIdentity(f, h)
  {
  }

  /** A hashable entity's cache key is exactly the hashed pair. */
  lemma HashableKeyIsPair(f: Fields, obj: Entity)
    requires HashOf(f).Ok?
    ensures CacheKeyOf(f, obj) == CacheKey(Plain(HashOf(f).value.0), Field(HashOf(f).value.1))
  {
  }

  /** Between hashable entities, equal cache keys mean the same entity and vice versa; the object does not matter. */
  lemma IdentifiedKeysCompare(f: Fields, g: Fields, a: Entity, b: Entity)
    requires HashOf(f).Ok? && HashOf(g).Ok?
    ensures CacheKeyOf(f, a) == CacheKeyOf(g, b) <==> SameIdentity(f, g)
  {
  }

  /** A detached key carries its object: two objects never share one, whatever their fields. */
  lemma DetachedKeysArePrivate(f: Fields, g: Fields, a: Entity, b: Entity)
    requires CacheKeyOf(f, a).part.ObjectId?
    requires CacheKeyOf(f, a) == CacheKeyOf(g, b)
    ensures a == b
  {
  }

  /** An entity is detached (keyed by its object) exactly when it has no truthy `id`. */
  lemma DetachedIffNoId(f: Fields, obj: Entity)
    ensures CacheKeyOf(f, obj).part.ObjectId? <==> !Truthy(RawGet(f, "id"))
    ensures CacheKeyOf(f, obj).part.ObjectId? ==>
              CacheKeyOf(f, obj).head == (if Truthy(RawGet(f, "type")) then DetachedOf(RawGet(f, "type")) else Plain(Str("Detached-Unknown")))
  {
  }

  /**
   * An id without a type is keyed under the type name `Unknown`, so it shares
   * its cache key with a real entity of type `Unknown` and the same id; only
   * the latter can be hashed, and only when its id is hashable.
   */
  lemma UnknownTypeShared(f: Fields, g: Fields, a: Entity, b: Entity)
    requires RawGet(f, "type") == Str("Unknown") && !Truthy(RawGet(g, "type"))
    requires Truthy(RawGet(f, "id")) && RawGet(f, "id") == RawGet(g, "id")
    ensures CacheKeyOf(f, a) == CacheKeyOf(g, b)
    ensures HashOf(f).Ok? <==> Hashable(RawGet(f, "id"))
    ensures HashOf(g).Err?
  {
  }

  /** `hash((type_, id_))` rejects a list id although the id is truthy: TypeError. */
  lemma ListIdIsUnhashable(f: Fields)
    requires f == map["type" := Str("Shot"), "id" := List([Int(1)])]
    ensures Truthy(RawGet(f, "id")) && HashOf(f).Err? && HashOf(f).error.TypeError?
  {
    assert RawGet(f, "id") == List([Int(1)]);
  }

  /** A hashable entity is never answered locally by `exists`: its type and id are set. */
  lemma HashableIsAskedRemotely(e: Entity)
    ensures e.Hash().Ok? ==> e.ExistsLocally().None?
  {
  }

  /**
   * The converse fails: an empty-string type is not None, so `exists` asks the
   * session, yet such an entity cannot be hashed.
   */
  lemma EmptyTypeIsAskedButUnhashable(e: Entity)
    requires e.fields == map["type" := Str(""), "id" := Int(3)]
    ensures e.ExistsLocally().None? && e.Hash().Err?
  {
    assert RawGet(e.fields, "type") == Str("");
  }
}
