/**
 * Deep-link reads, `__getitem__` of sgsession/entity.py:238-265: what reading
 * `local.Type.rest` means, hop by hop.
 */
module LookupProperties {
  import opened Wrappers
  import opened Strings
  import opened DeepKeys
  import opened Entities

  /** The record one hop leads to: `src[local]`, if it is a mapping whose `type` is the hop's type. */
  function Step(H: Heap, src: Value, h: Hop): (r: Option<Value>)
    ensures r.Some? ==> IsMapping(r.value) && Entry(H, r.value, "type") == Some(Str(h.typeName))
    ensures r.Some? ==> Entry(H, src, h.local) == r
  {
    match Entry(H, src, h.local)
    case None => None
    case Some(next) =>
      if IsMapping(next) && Entry(H, next, "type") == Some(Str(h.typeName)) then Some(next) else None
  }

  /** Reading `local.Type.rest` from `src`: take the hop, then read `rest` from where it leads. */
  lemma WalkHop(H: Heap, src: Value, h: Hop)
    requires WellFormed(h, false)
    ensures Walk(H, src, Join(h)) == if Step(H, src, h).Some? then Walk(H, Step(H, src, h).value, h.rest) else None
  {
    ParseJoin(h, false);
  }

  /**
   * `self[local.Type.rest]` succeeds exactly when `self[local]` is a mapping of
   * type `Type` and `rest` resolves on it, and then it is that value.
   */
  lemma DeepRead(H: Heap, self: Entity, h: Hop)
    requires WellFormed(h, false)
    ensures Lookup(H, self, Join(h)).Some? <==> Step(H, Ent(self), h).Some? && Walk(H, Step(H, Ent(self), h).value, h.rest).Some?
    ensures Lookup(H, self, Join(h)).Some? ==> Lookup(H, self, Join(h)) == Walk(H, Step(H, Ent(self), h).value, h.rest)
  {
    assert '.' in Join(h) by {
      assert Join(h)[|h.local|] == '.';
    }
    WalkHop(H, Ent(self), h);
  }

  /** A key that is not a deep key (no dot) is read directly from the entity's own fields. */
  lemma ShallowRead(H: Heap, self: Entity, key: string)
    requires '.' !in key
    ensures Lookup(H, self, key) == Entry(H, Ent(self), key)
  {
    NoDotNoHop(key, false);
  }

  /** Any broken hop (missing field, not a mapping, other type) makes the whole read fail. */
  lemma BrokenHopFails(H: Heap, self: Entity, h: Hop)
    requires WellFormed(h, false) && Step(H, Ent(self), h).None?
    ensures Lookup(H, self, Join(h)) == None
  {
    DeepRead(H, self, h);
  }

  /** A one-hop read through a link of the right type, onto a plain field of the target, finds that field. */
  lemma LinkedRead(H: Heap, self: Entity, target: Entity, h: Hop)
    requires WellFormed(h, false) && '.' !in h.rest
    requires self in H && h.local in H[self] && H[self][h.local] == Ent(target)
    requires target in H && "type" in H[target] && H[target]["type"] == Str(h.typeName)
    requires h.rest in H[target]
    ensures Lookup(H, self, Join(h)) == Some(H[target][h.rest])
  {
    DeepRead(H, self, h);
    assert Step(H, Ent(self), h) == Some(Ent(target));
    NoDotNoHop(h.rest, false);
  }

  /** A shot linked to a project named "Demo". */
  predicate ShotInDemo(H: Heap, shot: Entity, project: Entity) {
    && shot in H && project in H
    && H[shot] == map["type" := Str("Shot"), "id" := Int(1), "project" := Ent(project)]
    && H[project] == map["type" := Str("Project"), "id" := Int(7), "name" := Str("Demo")]
  }

  /** Reading through the link finds the project's name. */
  lemma ProjectNameRead(H: Heap, shot: Entity, project: Entity)
    requires ShotInDemo(H, shot, project)
    ensures Lookup(H, shot, "project.Project.name") == Some(Str("Demo"))
  {
    var good := Hop("project", "Project", "name");
    assert Join(good) == "project.Project.name";
    assert IsWord(good.local) && IsWord(good.typeName) && '.' !in good.rest;
    LinkedRead(H, shot, project, good);
  }

  /** Naming the wrong type in the key finds nothing. */
  lemma WrongTypeRead(H: Heap, shot: Entity, project: Entity)
    requires ShotInDemo(H, shot, project)
    ensures Lookup(H, shot, "project.Sequence.name") == None
  {
    var bad := Hop("project", "Sequence", "name");
    assert Join(bad) == "project.Sequence.name";
    assert IsWord("project") && IsWord("Sequence");
    assert Step(H, Ent(shot), bad) == None;
    BrokenHopFails(H, shot, bad);
  }
}
