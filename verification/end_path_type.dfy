/** The terminal ("end") path type: its options schema, and binding a path
    to its source step. */
module EndPathType {
  import opened Outcomes
  import opened OrderedMaps
  import opened Values
  import opened MapBuilder
  import OptionsResolver

  const SourceKey: string := "source"
  const LabelKey: string := "label"
  const StorageProviderKey: string := "storageProvider"

  const EndOptionKeys: set<string> := {SourceKey, LabelKey, StorageProviderKey}

  /** All three options are required, `label` defaults to "end", and all
      three must be strings. */
  const EndOptionsSchema: OptionsResolver.Schema :=
    OptionsResolver.Schema(
      EndOptionKeys,
      map[LabelKey := Str("end")],
      [],
      [(SourceKey, {StringType}), (LabelKey, {StringType}), (StorageProviderKey, {StringType})])

  /** The end path's options, resolved against its schema. */
  function ResolveEndOptions(options: map<string, Value>): (r: Result<map<string, Value>>)
    ensures r.Ok? <==>
              && options.Keys <= EndOptionKeys
              && SourceKey in options && StorageProviderKey in options
              && (forall k :: k in options ==> options[k].Str?)
    ensures options.Keys <= EndOptionKeys && !({SourceKey, StorageProviderKey} <= options.Keys) ==>
              r == Err(MissingOptions({SourceKey, StorageProviderKey} - options.Keys))
    ensures r.Ok? ==> r.value.Keys == EndOptionKeys
    ensures r.Ok? ==> forall k :: k in options ==> r.value[k] == options[k]
    ensures r.Ok? && LabelKey !in options ==> r.value[LabelKey] == Str("end")
  {
    var r := OptionsResolver.Resolve(EndOptionsSchema, options);
    assert EndOptionsSchema.Known() == EndOptionKeys;
    assert EndOptionKeys - options.Keys - EndOptionsSchema.defaults.Keys == {SourceKey, StorageProviderKey} - options.Keys;
    EndTypesCheck(options);
    r
  }

  /** With only schema keys supplied, the type rules amount to "every value is a string". */
  lemma EndTypesCheck(options: map<string, Value>)
    ensures options.Keys <= EndOptionKeys ==>
              ((forall i :: 0 <= i < |EndOptionsSchema.allowedTypes| ==>
                  OptionsResolver.TypeAllowed(EndOptionsSchema.defaults + options, EndOptionsSchema.allowedTypes[i]))
               <==> (forall k :: k in EndOptionsSchema.defaults + options ==> (EndOptionsSchema.defaults + options)[k].Str?))
  {
    var merged := EndOptionsSchema.defaults + options;
    if options.Keys <= EndOptionKeys {
      assert merged.Keys <= EndOptionKeys;
      var types := EndOptionsSchema.allowedTypes;
      if forall k :: k in merged ==> merged[k].Str? {
        forall i | 0 <= i < |types|
          ensures OptionsResolver.TypeAllowed(merged, types[i])
        {
          if types[i].0 in merged {
            assert HasType(merged[types[i].0], StringType);
          }
        }
      }
      if forall i :: 0 <= i < |types| ==> OptionsResolver.TypeAllowed(merged, types[i]) {
        assert OptionsResolver.TypeAllowed(merged, types[0]);
        assert OptionsResolver.TypeAllowed(merged, types[1]);
        assert OptionsResolver.TypeAllowed(merged, types[2]);
        forall k | k in merged
          ensures merged[k].Str?
        {
          assert k == SourceKey || k == LabelKey || k == StorageProviderKey;
        }
      }
    }
  }

  /** Options as the end path type receives them: resolved, with a string source. */
  predicate HasSource(options: map<string, Value>)
  {
    SourceKey in options && options[SourceKey].Str?
  }

  /** `buildPath`: the path's source becomes the map's step named by the
      `source` option; a name with no built step fails. */
  function BuildPath(path: Path, steps: OrderedMap<Step>, options: map<string, Value>): (r: Result<Path>)
    requires HasSource(options)
    ensures r.Ok? <==> options[SourceKey].s in Keys(steps)
    ensures r.Err? ==> r.error == StepNotInMap(options[SourceKey].s)
    ensures r.Ok? ==> r.value.typeAlias == path.typeAlias && r.value.options == path.options
    ensures r.Ok? ==> r.value.source.Some? && (options[SourceKey].s, r.value.source.value) in steps
  {
    match Lookup(steps, options[SourceKey].s)
    case Some(step) => Ok(path.(source := Some(step)))
    case None => Err(StepNotInMap(options[SourceKey].s))
  }

  /** Only `source` decides the binding: `label` and `storageProvider` do not. */
  lemma OnlySourceBinds(path: Path, steps: OrderedMap<Step>, o1: map<string, Value>, o2: map<string, Value>)
    requires HasSource(o1) && HasSource(o2) && o1[SourceKey] == o2[SourceKey]
    ensures BuildPath(path, steps, o1) == BuildPath(path, steps, o2)
  {
  }
}
