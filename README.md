# sgsession `Entity`, modelled in Dafny

`sgsession` keeps a local cache of Shotgun records. Each record is an
`Entity`: a dict from field name to value, identified by its `type` and `id`,
whose fields may link to other entities. This project models the `Entity`
class of `sgsession/entity.py`:

- identity: `cache_key`, `__hash__`, `is_same_entity`, `minimal`, `minimize`
  and `copy`;
- reads: the deep-link read `self['link.Type.field']` (`__getitem__`), with
  `__contains__` and `get`;
- the local short-circuits of `exists` and `project`;
- `as_dict`, the cycle-safe export to plain dicts;
- `_update`, the merge engine that folds an incoming record into a cached
  entity. It runs in three stages: deep-key preprocessing, the override
  decision, and the assignment loop that also records backrefs.

Values are the datatype `Entities.Value`. `Ent(e)` is a link to a mutable
`Entities.Entity` object, whose `fields` and `backrefs` are
updated in place. A method that reads or changes several entities takes a
ghost set `U` of them (the session's cache). It is specified against a pure
snapshot `View(U)` (fields) and `Refs(U)` (backrefs), and against pure
functions over those snapshots: `Lookup`, `Export`, `PreStep`/`PreAll`,
`Decide`, `AssignAll` and `Updated`. The lemmas are proved about those
functions.

The session's collaborators are fixed as follows:

- `session.merge` returns its argument;
- the schema resolves every field name to itself;
- `parse_isotime` and `expect_datetime` work on integer timestamps (`Int`),
  and anything else fails to parse;
- `id(self)` in a detached cache key is the object itself.

Python 2's dict iteration order is unspecified. The record given to `_update`
is an insertion-ordered dict (`OrderedDicts.ODict`). The preprocessing loop
walks a snapshot of its items (`data.items()`). The assignment loop walks the
dict as preprocessing left it (`data.iteritems()`).

The preprocessing depends on the order of the record's items. One might
expect a null deep link such as `{'entity.Shot.id': None,
'entity.Shot.code': 'foo'}` to set `entity` to None. The code does so only
when `entity.Shot.code` is visited first. In the
other order, the null id first sets `entity` to None, and the non-null
sibling then raises `ValueError('Setting deep value on non-dict')`
(`MergeProperties.NullIdThenSiblingFails`,
`MergeProperties.SiblingThenNullIdDropsSibling`).

A second quirk: a null deep key kept by one of the two `continue` branches
stays in the record under its dotted name. The assignment loop then tests
`k not in self` with a deep read. So such a key can be stored even when the
decision is not to override. The "existing fields are kept" lemmas are
therefore stated for plain field names (`MergeProperties.Plain`).

## Model

| member | source | states |
|---|---|---|
| Entities.CacheKeyOf | sgsession/entity.py:42-52 | The key is detached (carries the object itself) exactly when neither "type and id truthy" nor "id truthy without type" holds; otherwise its second part is the truthy id |
| IdentityProperties.HashableKeyIsPair | sgsession/entity.py:42-46 | With type and id both truthy, the cache key is the pair `(type, id)` that is hashed |
| IdentityProperties.IdentifiedKeysCompare | sgsession/entity.py:42-46 | Between hashable entities, equal cache keys iff same `(type, id)`, whatever the objects |
| IdentityProperties.DetachedKeysArePrivate | sgsession/entity.py:47-52 | Two objects never share a detached key, whatever their fields |
| IdentityProperties.DetachedIffNoId | sgsession/entity.py:42-52 | Detached iff `id` is falsy; the head is `Detached-<type>` when the type is truthy, else `Detached-Unknown` |
| IdentityProperties.UnknownTypeShared | sgsession/entity.py:49-50 | An id without a type shares its key with a real entity of type `Unknown` and the same id; only the latter is hashable, and exactly when its id is |
| Entities.HashOf | sgsession/entity.py:125-130 | Hashing succeeds iff type and id are both truthy and both hashable (no list or dict, also inside a tuple), and then hashes exactly `(type, id)`; otherwise TypeError |
| IdentityProperties.ListIdIsUnhashable | sgsession/entity.py:130 | A truthy list id still makes `hash((type_, id_))` raise TypeError |
| IdentityProperties.HashIgnoresOtherFields | sgsession/entity.py:125-130 | Changing any field other than `type` and `id` leaves the hash as it was |
| IdentityProperties.HashIsIdentity | sgsession/entity.py:125-130 | Same identity (`is_same_entity`, lines 75-78) gives the same hashed pair; for hashable entities, equal hashed pairs give the same identity |
| IdentityProperties.SameIdentityIgnoresOtherFields | sgsession/entity.py:75-78 | `is_same_entity` ignores every field but `type` and `id`, on either side |
| IdentityProperties.SameIdentityIsEquivalence | sgsession/entity.py:75-78 | `is_same_entity` is reflexive, symmetric and transitive |
| Entities.MinimalOf | sgsession/entity.py:66-69 | `minimal` holds exactly `type` and `id`, with the entity's values |
| Entities.Entity.Minimize | sgsession/entity.py:54-64 | Succeeds iff not strict or every requested key is present; the result is `type`, `id` and the requested keys present, with their values; a strict failure is KeyError of the first missing key |
| Entities.Entity.Copy | sgsession/entity.py:363-364 | Copying always raises RuntimeError |
| Entities.Entity.ExistsLocally | sgsession/entity.py:211-213 | Answers False locally iff `id` or `type` is None, never answers True, and otherwise defers to the session |
| IdentityProperties.HashableIsAskedRemotely | sgsession/entity.py:211-216 | A hashable entity (one `__hash__` accepts, lines 125-130) is never answered locally by `exists` |
| IdentityProperties.EmptyTypeIsAskedButUnhashable | sgsession/entity.py:212 | An empty-string type is not None, so `exists` asks the session, yet such an entity cannot be hashed (line 128) |
| DeepKeys.ParseHop | sgsession/entity.py:252 | A match of `^(\w+)\.([A-Z]\w+)\.(.+)$` (or `(.*)`, as at line 304) gives a local word, a type name, and a rest without newline (non-empty for `.+`) that spell the key, up to the one trailing newline `$` admits |
| DeepKeys.ParseJoin | sgsession/entity.py:252 | A key spelled from such groups matches either pattern (lines 252 and 304) and gives those groups back |
| DeepKeys.NoDotNoHop | sgsession/entity.py:252-254 | A key without a dot never matches, so it is read directly |
| Entities.Entity.GetItem | sgsession/entity.py:238-265 | `self[key]` is the value `Lookup` finds in the current fields, or KeyError of the key that was asked for |
| LookupProperties.WalkHop | sgsession/entity.py:251-262 | Reading `local.Type.rest` takes one hop, then reads `rest` from where it leads; a failed hop fails the read |
| LookupProperties.DeepRead | sgsession/entity.py:243-265 | A deep read succeeds iff `self[local]` is a mapping whose `type` is `Type` and `rest` resolves on it, and then it is that value |
| LookupProperties.ShallowRead | sgsession/entity.py:243-256 | A key without a dot is read from the entity's own fields |
| LookupProperties.BrokenHopFails | sgsession/entity.py:256-262 | A missing link, a non-mapping, or a type mismatch makes the whole read fail |
| LookupProperties.LinkedRead | sgsession/entity.py:243-265 | Reading `local.Type.field` through a link to an entity of type `Type` that has `field` gives that field's value |
| LookupProperties.ProjectNameRead | sgsession/entity.py:243-265 | A shot linked to project "Demo" reads `project.Project.name` as "Demo" |
| LookupProperties.WrongTypeRead | sgsession/entity.py:260-262 | Naming the wrong type (`project.Sequence.name`) finds nothing |
| Entities.Entity.Contains | sgsession/entity.py:230-236 | `key in self` iff the read succeeds |
| Entities.Entity.Get | sgsession/entity.py:367-389 | One name gives its value or `default`; a list or tuple of names gives a tuple of the same length with each position's value or `default` |
| Entities.Entity.ProjectLocally | sgsession/entity.py:470-475 | A Project is its own project; otherwise the `project` read, or nothing when that raises KeyError |
| Exports.Export | sgsession/entity.py:90-107 | `visited` only grows, and only by entities of the cache, which is why the recursion ends on cyclic graphs |
| Exports.ExportEntity | sgsession/entity.py:98-107 | The same bound for an entity: `visited` grows by cached entities only |
| Exports.ExportSeq | sgsession/entity.py:93-94 | The same bound for the list comprehension |
| Exports.ExportEntries | sgsession/entity.py:103-105 | The same bound for the loop over sorted items |
| Exports.ExportValue | sgsession/entity.py:90-107 | `_as_dict(obj, visited)` on the live objects returns what `Export` gives, and the `visited` it leaves |
| Exports.ExportItems | sgsession/entity.py:93-94 | The list comprehension on the live objects equals `ExportSeq` from the start |
| Exports.ExportFields | sgsession/entity.py:103-107 | The loop over the keys in the order given (`ExportValue` passes the sorted keys) on the live objects equals `ExportEntries` over those keys |
| Exports.AsDict | sgsession/entity.py:80-88 | `as_dict()` is `_as_dict(self, set())` |
| Strings.SortedKeys | sgsession/entity.py:104 | `sorted` lists every key once, in strictly increasing order |
| Strings.SortedKeysUnique | sgsession/entity.py:104 | A strictly increasing listing of the keys is the `sorted` one |
| ExportProperties.ExportWellBehaved | sgsession/entity.py:90-107 | `visited` grows by exactly the entities expanded in full, each once; with plain identities, a successful result holds no entity |
| ExportProperties.EntityWellBehaved | sgsession/entity.py:98-107 | The same for an entity |
| ExportProperties.SeqWellBehaved | sgsession/entity.py:93-94 | Lists and tuples export to a list of the same length, with plain items, and the bookkeeping of `visited` |
| ExportProperties.SeqValueAt | sgsession/entity.py:93-94 | In the comprehension, output position `j` is the export of input item `j`, started from a `visited` set that contains the initial one |
| ExportProperties.ListItemsConverted | sgsession/entity.py:93-94 | A converted list or tuple has the input's length, and each of its items is the export of the matching input item |
| ExportProperties.EntriesWellBehaved | sgsession/entity.py:103-105 | A dict or entity exports to a dict with exactly its keys, with plain values |
| ExportProperties.ExportOfPlain | sgsession/entity.py:93-107 | Plain data comes back unchanged and visits nothing |
| ExportProperties.ExportIdempotent | sgsession/entity.py:80-107 | Exporting the output of `as_dict` again gives the same output |
| ExportProperties.VisitedIsMinimal | sgsession/entity.py:99-100 | An entity already visited is written as its `minimal` form |
| ExportProperties.ExpandFirst | sgsession/entity.py:101-107 | An entity met for the first time is added to `visited` and expanded over its sorted fields |
| ExportProperties.FieldOfExpansion | sgsession/entity.py:101-105 | A field of an expanded entity is the export of its value, started with that entity already visited |
| ExportProperties.SelfLinkIsMinimal | sgsession/entity.py:98-107 | An entity linking to itself is expanded once; the link inside is its `minimal` form |
| ExportProperties.LinkBackIsMinimal | sgsession/entity.py:98-107 | For two entities linking to each other, the link back to the first inside the expansion is its `minimal` form |
| ExportProperties.LinkBackInside | sgsession/entity.py:98-107 | Expanding `b` with `a` visited writes `b`'s link to `a` as `a`'s `minimal` form |
| Entities.StoredAsWritten | sgsession/entity.py:267-277 | As written, `self[k] = v` fails with NameError exactly for `updated_at`/`created_at` values that do not parse, and stores every other value unchanged |
| Entities.Entity.SetItem | sgsession/entity.py:267-277 | `self[k] = v` stores `v` under `k` and changes nothing else (the intended behaviour; see Findings) |
| Entities.PreprocessDeepKeys | sgsession/entity.py:301-329 | The preprocessing loop over the snapshot of items gives the record, the error and the cached entities' new fields that `PreAll` gives |
| Entities.DeepenKey | sgsession/entity.py:302-329 | One turn of the preprocessing loop does what `PreStep` says, on the record and on a linked entity |
| Entities.Entity.Deepen | sgsession/entity.py:320-323 | A deep key landing on a cached entity: `setdefault('type', T)`, then the value stored when the type is `T` and the value not None; the cache stays coherent |
| Entities.DeepenHop | sgsession/entity.py:305-329 | A key already parsed as a deep key does what `PreHop` says: the null-id branch, the skip branch, or the set into the dict or entity named by its first part |
| Entities.DeepenInto | sgsession/entity.py:320-329 | After `setdefault(local, {})`, the set into a dict, into an entity, or the ValueError for anything else does what `PreInto` says |
| MergeProperties.PreStepFails | sgsession/entity.py:320-326 | Preprocessing an item fails iff it is a non-null deep value whose field exists and is not a mapping, and then with `ValueError('Setting deep value on non-dict')` |
| MergeProperties.NullIdClearsLink | sgsession/entity.py:307-311 | A null `f.T.id` sets `f` to None, and the dotted key stays in the record |
| MergeProperties.NullSkippedBesideFalsyId | sgsession/entity.py:313-319 | A null non-id deep key whose id sibling is present and falsy changes nothing, and stays in the record |
| MergeProperties.DeepValueLandsInDict | sgsession/entity.py:320-329 | Otherwise, when `f` is absent or a dict: the dotted key leaves the record; `f` becomes a dict whose `type` is its old one or `T`; the value lands in it only when that type is `T` and the value is not None; nothing else changes |
| MergeProperties.DeepValueLandsOnEntity | sgsession/entity.py:320-329 | When `f` holds an entity: the dotted key leaves the record, and that entity receives the value exactly when its type is `T` and the value is not None; no other entity changes |
| MergeProperties.PreStepKeepsDeepKeys | sgsession/entity.py:301-329 | A turn of preprocessing leaves every other deep key as it was; only a null deep key can survive its own turn |
| MergeProperties.PreAllLeavesNullDeepKeys | sgsession/entity.py:301-329 | Over the loop, when every non-null deep key is still to be visited, no deep key but null ones is left |
| MergeProperties.SurvivingDeepKeysAreNull | sgsession/entity.py:301-329 | After successful preprocessing, the only deep keys left are null ones (those the `continue` branches kept) |
| MergeProperties.NullIdThenSiblingFails | sgsession/entity.py:307-326 | A null `f.T.id` visited before a non-null `f.T.x` makes preprocessing fail with ValueError |
| MergeProperties.SiblingThenNullIdDropsSibling | sgsession/entity.py:307-329 | In the other order nothing fails, `f` ends as None, and `f.T.x` is gone from the record |
| MergeProperties.PlainSkipsPreprocessing | sgsession/entity.py:301-304 | A record without deep keys passes preprocessing unchanged |
| Entities.StampLookup | sgsession/entity.py:335-339 | `updated_at` has no dot, so `self['updated_at']` reads the entity's own field (`OwnStamp`) |
| Entities.Entity.DecideOverride | sgsession/entity.py:331-345 | The decision is `Decide` applied to `over`, the read of `self['updated_at']` (its own field, by `StampLookup`), the record's `updated_at`, and the context time |
| Entities.Entity.AddBackref | sgsession/entity.py:358-361 | The target's backrefs become `Linked`: `setdefault((type, k), [])`, then `self` appended unless already listed; nothing else changes |
| MergeProperties.LinkedOnce | sgsession/entity.py:358-361 | Recording a backref lists the linker under the key exactly once, keeps every list free of duplicates, removes nothing, and touches no other list |
| MergeProperties.LinkedAgain | sgsession/entity.py:360-361 | Recording a backref already there changes nothing, so repeated merges never duplicate it |
| Entities.Entity.Assign | sgsession/entity.py:355-361 | `self[k] = v`, plus the backref under `(self['type'], k)` when `v` is an entity; every other entity's fields are unchanged |
| Entities.Entity.Stores | sgsession/entity.py:353 | An item is stored iff overriding or `k not in self`, where `in` is the deep read of the current fields |
| Entities.Entity.AssignItem | sgsession/entity.py:347-361 | One turn of the assignment loop does what `AssignStep` says |
| Entities.Entity.AssignFields | sgsession/entity.py:347-361 | The assignment loop over the preprocessed record does what `AssignAll` says, and keeps the cache coherent |
| MergeProperties.AssignAllFields | sgsession/entity.py:353-355 | With plain names, each item is stored when overriding or when the field is absent, else the old value is kept; other fields are untouched |
| MergeProperties.AssignAllKeepsRefs | sgsession/entity.py:347-361 | The assignment loop keeps every backref list free of duplicates and removes no backref |
| MergeProperties.AssignAllLinks | sgsession/entity.py:353-361 | The forced case only: when overriding, each entity-valued item leaves `self` listed exactly once in the target's backrefs under `(type, field)`, when the record does not also change `type` (without override, `AssignAllKeepsRefs` states only that no backref is lost) |
| MergeProperties.AssignAllNoOp | sgsession/entity.py:353-355 | Without override, a record whose plain fields are all present assigns nothing |
| Entities.Entity.Apply | sgsession/entity.py:331-361 | The override decision plus the assignment loop do what `Applied` says |
| Entities.Entity.UpdateAt | sgsession/entity.py:300-361 | Preprocessing, then the rest, do what `UpdatedAt` says; an error stops the merge and keeps the changes made before it |
| Entities.Entity.Update | sgsession/entity.py:287-361 | `_update(data, over, created_at)` leaves the fields, the backrefs and the error that `Updated` gives; a bad `created_at` fails before anything changes |
| MergeProperties.AppliedFields | sgsession/entity.py:331-361 | After preprocessing, with plain names, each record field is stored when the decision overrides or the entity lacks it, else the old value stays; other fields and other entities are unchanged |
| MergeProperties.NewerRecordWins | sgsession/entity.py:334-355 | Under `over=None`, with own `updated_at` `s` and incoming time `t` (the record's, else the context time), the record's fields replace the entity's iff `t > s`; absent fields are taken either way |
| MergeProperties.UnstampedTakesRecord | sgsession/entity.py:334-355 | Under `over=None`, an entity without `updated_at`, or a record without a timestamp and no context time, takes every field of the record |
| MergeProperties.ForcedOrDeclined | sgsession/entity.py:331-355 | A truthy `over` takes every record field; any other non-None value keeps every field the entity already has |
| MergeProperties.StaleRecordChangesNothing | sgsession/entity.py:334-355 | Under `over=None`, a record whose fields the entity already holds, with a timestamp no newer than the entity's, changes neither fields nor backrefs |
| MergeProperties.UpdateIsIdempotent | sgsession/entity.py:287-361 | Merging the same timestamped record twice under `over=None`: the second merge changes neither fields nor backrefs |
| MergeProperties.UnparsableStampRaisesNameError | sgsession/entity.py:270-275 | As written, setting `updated_at` to "yesterday" raises NameError |
| MergeProperties.UnparsableStampIsKept | sgsession/entity.py:270-277 | A forced merge (line 355 stores through `self[k] = v`) of a record whose `updated_at` does not parse stores that value as given, with no error |

## Left out

- `asyncable` and `session._submit_concurrent` (entity.py:10-17): deferred execution is concurrency, not logic. Every call is modelled as synchronous.
- `pprint`, `pformat`, `_pprint`, `__repr__`, `_repr_type`, `name` and `url`: text formatting and memory addresses.
- `fetch`, `fetch_core`, `fetch_heirarchy`, `fetch_backrefs`, `parent`, the session call in `exists`, and the parent chain of `project`: they delegate to the remote session and the network. Only the local short-circuits of `exists` (212-213) and `project` (470-475) are modelled.
- The conversion of timezone-aware datetimes to UTC (297-299): there are no datetimes; timestamps are integers.
- `parse_isotime` and `expect_datetime` internals live in `sgsession/utils.py`, which is not part of this model. An `Int` parses and anything else fails (`BadTimestamp`). The message `expect_datetime` builds from `depth` is not modelled.
- `__reduce__` (pickling) and `__init__`'s session bookkeeping.
- Schema alias resolution (`_resolve_key`, 220-228): every name resolves to itself.
- `session.merge` (277, 351) returns its argument. So the nested merge of linked records (with `over`, `created_at`, `depth` and `memo`) is not modelled, and a dict value is stored as a dict, not turned into an entity.
- The public `update()` and `setdefault()` wrappers (279-285): they resolve the key and call `_update` or `dict.setdefault`.
- tests/fixtures.py: it creates live Shotgun records over the network.
- Python 2 dict order: modelled as insertion order. The source promises no order, so the order-dependence lemmas cover each order explicitly.
- Non-string keys in `__getitem__` (240-241): field names are strings in this model.
- Equality across types (an `Int` against a `Bool`, `1 == True` in Python): values compare as datatypes.
- Entities.Hashable: a linked entity used as `type` or `id` counts as hashable; Python would call its own `__hash__`, which can raise TypeError in turn.
- The merge engine stores through the corrected `SetItem` (the deep value set onto a linked entity at entity.py:323, and `self[k] = v` at 355). As written, those writes go through the same `__setitem__`, so merging a record whose `updated_at` does not parse raises the NameError of the finding below; the model stores the raw value instead.
- Exports.ExportEntity: `obj in visited` is set membership in Python, so equal hash and then `==`, and `Entity` inherits dict equality. A distinct object with the same `type`, `id` and equal fields counts as visited there and is written as its `minimal` form; the model tests object identity and expands it. The session cache keeps one object per record, so two such objects do not normally meet.
- IdentityProperties.HashIsIdentity: `hash()` is modelled by the `(type, id)` pair it hashes (`HashOf`). Collisions of Python's hash, such as `hash(-1) == hash(-2)`, are not modelled.
- Entities.CacheKeyOf: `'Detached-%s' % type_` is kept as `DetachedOf(type_)` and not formatted into text. So the model tells apart two keys Python makes equal: a falsy id with type `'Unknown'` and a falsy id with a falsy type both give `'Detached-Unknown'`. The `%s` formatting of non-string types is not modelled either.
- Entities.Entity.AddBackref: `self not in backrefs` compares by `==` in Python, which for two dict-like entities compares their fields. The model compares by object identity.
- Aliasing: a nested dict the caller also holds is shared in Python, and a deep key writes into it. The model's dicts are values, so the caller's copy is not changed.
- ExportProperties.ExportWellBehaved: "the output holds no entity" is stated only when every cached entity's `type` and `id` are plain data (`IdentitiesPlain`). A `minimal` form copies `type` and `id` as they are.
- The `existence` field (`_exists`) is only read by `exists` through the session, so it is never written here.

## Findings

| source | as written | input that shows it | evidently intended | confidence | as-written member | corrected member |
|---|---|---|---|---|---|---|
| sgsession/entity.py:270-275 | When a timestamp does not parse, `__setitem__` calls `log.exception`, but no `log` is defined or imported in entity.py, so NameError escapes | `entity['updated_at'] = 'yesterday'` | Log the problem and store the raw value (the comment at 336-338 expects such strings to get through) | not executed; assumes `parse_isotime` raises ValueError on such a string | MergeProperties.UnparsableStampRaisesNameError | MergeProperties.UnparsableStampIsKept |
