/** Per-resource action maps of pkg/services/accesscontrol/metadata.go.

    A `Metadata` maps an action to `true` for every action a user holds on one
    resource. Go maps are references; here they are values, and each routine
    returns the map it built or updated. */
module ResourceMetadata {
  import opened Wrappers

  /** The actions a user holds on one resource. */
  type Metadata = map<string, bool>

  // ---------------------------------------------------------------- MergeMeta

  /** The map `MergeMeta` returns: `first` with every key of `second` that
      starts with `prefix` set to `true`. */
  function Merged(prefix: string, first: Metadata, second: Metadata): Metadata {
    first + map k | k in second && prefix <= k :: true
  }

  /** What a merge holds, key by key. */
  lemma MergedMeaning(prefix: string, first: Metadata, second: Metadata)
    // every key of second with the prefix is in the result, mapped to true
    ensures forall k :: k in second && prefix <= k ==>
      k in Merged(prefix, first, second) && Merged(prefix, first, second)[k]
    // every other key of first keeps its value
    ensures forall k :: k in first && !(k in second && prefix <= k) ==>
      k in Merged(prefix, first, second) && Merged(prefix, first, second)[k] == first[k]
    // and nothing else is added
    ensures forall k :: k in Merged(prefix, first, second) ==> k in first || (k in second && prefix <= k)
  {
  }

  /** `MergeMeta(prefix, first, second)`: a nil `first` becomes a fresh empty
      map; then the loop copies the prefixed keys of `second` (whatever their
      value) into it. */
  method MergeMeta(prefix: string, first: Option<Metadata>, second: Metadata) returns (r: Metadata)
    ensures r == Merged(prefix, if first.Some? then first.value else map[], second)
  {
    r := if first.Some? then first.value else map[];
    ghost var start := r;
    var keys := second.Keys;
    while keys != {}
      invariant keys <= second.Keys
      invariant forall k :: k in r <==> k in start || (k in second && k !in keys && prefix <= k)
      invariant forall k :: k in r ==> r[k] == if k in second && k !in keys && prefix <= k then true else start[k]
      decreases keys
    {
      var key :| key in keys;
      if prefix <= key {
        r := r[key := true];
      }
      keys := keys - {key};
    }
    assert r.Keys == Merged(prefix, start, second).Keys;
  }

  /** Merging the same map a second time changes nothing. */
  lemma MergeIdempotent(prefix: string, first: Metadata, second: Metadata)
    ensures Merged(prefix, Merged(prefix, first, second), second) == Merged(prefix, first, second)
  {
    var once := Merged(prefix, first, second);
    var twice := Merged(prefix, once, second);
    assert twice.Keys == once.Keys;
    assert forall k :: k in once ==> twice[k] == once[k];
  }

  /** With a nil `first` the result holds exactly the prefixed keys of `second`. */
  lemma MergeIntoNil(prefix: string, second: Metadata)
    ensures Merged(prefix, map[], second).Keys == set k | k in second && prefix <= k
    ensures forall k :: k in Merged(prefix, map[], second) ==> Merged(prefix, map[], second)[k]
  {
    var r := Merged(prefix, map[], second);
    assert forall k :: k in r <==> k in second && prefix <= k;
  }

  // ---------------------------------------------------------------- addActionToMetadata

  /** `addActionToMetadata(allMetadata, action, id)`: record `action` under
      resource `id`, starting a new map for an id seen for the first time. */
  function AddActionToMetadata(all: map<string, Metadata>, action: string, id: string): map<string, Metadata> {
    var metadata := if id !in all then map[action := true] else all[id][action := true];
    all[id := metadata]
  }

  /** What recording one action changes. */
  lemma AddActionRecords(all: map<string, Metadata>, action: string, id: string)
    ensures AddActionToMetadata(all, action, id).Keys == all.Keys + {id}
    // the action is now held on id
    ensures action in AddActionToMetadata(all, action, id)[id] && AddActionToMetadata(all, action, id)[id][action]
    // earlier actions under id are kept and nothing else is added there
    ensures id in all ==> forall a :: a in all[id] && a != action ==>
      a in AddActionToMetadata(all, action, id)[id] && AddActionToMetadata(all, action, id)[id][a] == all[id][a]
    ensures forall a :: a in AddActionToMetadata(all, action, id)[id] ==> a == action || (id in all && a in all[id])
    // every other id is unchanged
    ensures forall k :: k in all && k != id ==> AddActionToMetadata(all, action, id)[k] == all[k]
  {
  }

  /** Recording the same action twice leaves the maps as recording it once. */
  lemma AddActionIdempotent(all: map<string, Metadata>, action: string, id: string)
    ensures AddActionToMetadata(AddActionToMetadata(all, action, id), action, id)
         == AddActionToMetadata(all, action, id)
  {
    var once := AddActionToMetadata(all, action, id);
    assert once[id][action := true] == once[id];
  }

  // ---------------------------------------------------------------- GetResourcesMetadata

  /** `GetResourcesMetadata(ctx, permissions, prefix, resourceIDs)`: one
      metadata map per resource id, each the user's metadata for the scope
      `prefix + id`. `metadataOf` stands for `permissions.Metadata`. */
  method GetResourcesMetadata(metadataOf: string -> Metadata, prefix: string, resourceIDs: map<string, bool>)
    returns (result: map<string, Metadata>)
    ensures result.Keys == resourceIDs.Keys
    ensures forall id :: id in result ==> result[id] == metadataOf(prefix + id)
  {
    result := map[];
    var todo := resourceIDs.Keys;
    while todo != {}
      invariant todo <= resourceIDs.Keys
      invariant result.Keys == resourceIDs.Keys - todo
      invariant forall id :: id in result ==> result[id] == metadataOf(prefix + id)
      decreases todo
    {
      var id :| id in todo;
      result := result[id := metadataOf(prefix + id)];
      todo := todo - {id};
    }
  }
}
