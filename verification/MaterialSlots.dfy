/** Applying the material metadata that came back with an imported mesh:
    each material description becomes a material instance of the bridge's
    base material, with its textures looked up by name among the imported
    textures, and is assigned to the mesh's material slots in order, across
    all meshes of the metadata, until the slots run out.

    The asset registry and the asset factory are a map of existing instances
    and a set of instance names that cannot be created, both keyed by the
    instance name folded to lower case: object names are `FName`s, which
    compare ignoring case, so names differing only in case find the same
    instance. */
module MaterialSlots {
  import opened Wrappers
  import Text
  import M = Metadata

  /** An imported texture, known by its object name. */
  datatype Texture = Texture(name: string)

  /** `FindObjectByNameInArray`: the position of the first non-null candidate
      whose name is the target, compared ignoring case as engine names are. */
  function FindIndex(candidates: seq<Option<Texture>>, target: string): (r: Option<nat>)
    ensures r.Some? ==> r.value < |candidates| && candidates[r.value].Some?
  {
    if |candidates| == 0 then None
    else if candidates[0].Some? && Text.EqualsIgnoreCase(candidates[0].value.name, target) then Some(0)
    else
      match FindIndex(candidates[1..], target)
      case Some(k) => Some(k + 1)
      case None => None
  }

  /** No non-null candidate before position `end` has the target's name. */
  predicate NoneNamedBefore(candidates: seq<Option<Texture>>, target: string, end: nat)
    requires end <= |candidates|
  {
    forall j :: 0 <= j < end && candidates[j].Some? ==> !Text.EqualsIgnoreCase(candidates[j].value.name, target)
  }

  /** The search finds the first candidate with the target's name, and finds
      nothing exactly when no candidate has it. */
  lemma {:induction false} FirstMatch(candidates: seq<Option<Texture>>, target: string)
    ensures var r := FindIndex(candidates, target);
      && (r.Some? ==> Text.EqualsIgnoreCase(candidates[r.value].value.name, target)
                      && NoneNamedBefore(candidates, target, r.value))
      && (r.None? <==> NoneNamedBefore(candidates, target, |candidates|))
    decreases |candidates|
  {
    if |candidates| > 0 {
      FirstMatch(candidates[1..], target);
      var tail := candidates[1..];
      forall j | 1 <= j < |candidates|
        ensures candidates[j] == tail[j - 1]
      {
      }
    }
  }

  function FindObjectByNameInArray(candidates: seq<Option<Texture>>, target: string): Option<Texture> {
    match FindIndex(candidates, target)
    case Some(k) => candidates[k]
    case None => None
  }

  /** What the search returns is a candidate with the target's name, and it
      returns nothing exactly when no candidate has that name. */
  lemma Found(candidates: seq<Option<Texture>>, target: string)
    ensures var r := FindObjectByNameInArray(candidates, target);
      && (r.Some? ==> Some(r.value) in candidates && Text.EqualsIgnoreCase(r.value.name, target))
      && (r.None? <==> NoneNamedBefore(candidates, target, |candidates|))
  {
    FirstMatch(candidates, target);
  }

  /** An empty name, which the engine reads as no name at all, finds no
      texture: every object has a name. */
  lemma EmptyNameFindsNothing(candidates: seq<Option<Texture>>)
    requires forall j :: 0 <= j < |candidates| && candidates[j].Some? ==> candidates[j].value.name != ""
    ensures FindObjectByNameInArray(candidates, "") == None
  {
    Found(candidates, "");
  }

  // ---------------------------------------------------------------------------
  // Material instances

  /** The texture parameters of the base material. */
  datatype TextureSlot = BaseColorTexture | NormalTexture | RoughnessTexture | MetallicTexture | EmissionTexture | OcclusionTexture

  datatype Parameter = TextureParameter(slot: TextureSlot) | SmoothnessScalar | MetallicScalar | BaseColorTint

  datatype ParameterValue = TextureValue(texture: Texture) | ScalarValue(value: real) | VectorValue(color: M.Color)

  /** A material instance: whether its parent is the bridge's base material,
      and the parameters it overrides. */
  datatype Instance = Instance(parentIsBase: bool, parameters: map<Parameter, ParameterValue>)

  /** The texture name a material description gives for a texture
      parameter. */
  function SourceName(info: M.MaterialInfo, t: TextureSlot): string {
    match t
    case BaseColorTexture => info.albedoName
    case NormalTexture => info.normalName
    case RoughnessTexture => info.roughnessName
    case MetallicTexture => info.metallicName
    case EmissionTexture => info.emissiveName
    case OcclusionTexture => info.occlusionName
  }

  /** The texture a description names for a parameter, if any candidate
      has that name. */
  function Lookup(info: M.MaterialInfo, candidates: seq<Option<Texture>>, t: TextureSlot): Option<Texture> {
    FindObjectByNameInArray(candidates, SourceName(info, t))
  }

  /** The texture parameters in the order they are set. */
  const TextureSlots: seq<TextureSlot> :=
    [BaseColorTexture, NormalTexture, RoughnessTexture, MetallicTexture, EmissionTexture, OcclusionTexture]

  lemma EveryTextureSlotSet(t: TextureSlot)
    ensures t in TextureSlots
  {
    match t
    case BaseColorTexture => assert TextureSlots[0] == t;
    case NormalTexture => assert TextureSlots[1] == t;
    case RoughnessTexture => assert TextureSlots[2] == t;
    case MetallicTexture => assert TextureSlots[3] == t;
    case EmissionTexture => assert TextureSlots[4] == t;
    case OcclusionTexture => assert TextureSlots[5] == t;
  }

  /** `after` has the texture found for `t`, or what `before` had for it when
      none is found. */
  predicate TextureOutcome(before: map<Parameter, ParameterValue>, after: map<Parameter, ParameterValue>, t: TextureSlot, found: Option<Texture>) {
    match found
    case Some(texture) => TextureParameter(t) in after && after[TextureParameter(t)] == TextureValue(texture)
    case None =>
      (TextureParameter(t) in after <==> TextureParameter(t) in before) &&
      (TextureParameter(t) in after ==> after[TextureParameter(t)] == before[TextureParameter(t)])
  }

  /** `after` agrees with `before` on parameter `q`. */
  predicate Kept(before: map<Parameter, ParameterValue>, after: map<Parameter, ParameterValue>, q: Parameter) {
    (q in after <==> q in before) && (q in after ==> after[q] == before[q])
  }

  /** Sets each listed texture parameter to the texture found for it. */
  function SetTextures(parameters: map<Parameter, ParameterValue>, info: M.MaterialInfo,
                       candidates: seq<Option<Texture>>, slots: seq<TextureSlot>): map<Parameter, ParameterValue>
    decreases |slots|
  {
    if |slots| == 0 then parameters
    else
      var t := slots[0];
      var p := match Lookup(info, candidates, t)
        case Some(texture) => parameters[TextureParameter(t) := TextureValue(texture)]
        case None => parameters;
      SetTextures(p, info, candidates, slots[1..])
  }

  /** Each listed texture parameter gets the texture found for it, or keeps
      its value when none is found; every other parameter is left alone. */
  lemma {:induction false} TexturesSet(parameters: map<Parameter, ParameterValue>, info: M.MaterialInfo,
                                       candidates: seq<Option<Texture>>, slots: seq<TextureSlot>)
    ensures var r := SetTextures(parameters, info, candidates, slots);
      && (forall t :: t in slots ==> TextureOutcome(parameters, r, t, Lookup(info, candidates, t)))
      && (forall q: Parameter :: !(q.TextureParameter? && q.slot in slots) ==> Kept(parameters, r, q))
    decreases |slots|
  {
    if |slots| > 0 {
      var t := slots[0];
      var p := match Lookup(info, candidates, t)
        case Some(texture) => parameters[TextureParameter(t) := TextureValue(texture)]
        case None => parameters;
      TexturesSet(p, info, candidates, slots[1..]);
      assert forall u :: u in slots <==> u == t || u in slots[1..];
    }
  }

  /** Sets the smoothness, the metallic value and the tint. */
  function WithScalars(parameters: map<Parameter, ParameterValue>, info: M.MaterialInfo): map<Parameter, ParameterValue> {
    parameters[SmoothnessScalar := ScalarValue(info.smoothness)]
              [MetallicScalar := ScalarValue(info.metallic)]
              [BaseColorTint := VectorValue(info.tint)]
  }

  /** The scalar parameters and the tint of `instance` are those of `info`. */
  predicate Carries(instance: Instance, info: M.MaterialInfo) {
    && SmoothnessScalar in instance.parameters && instance.parameters[SmoothnessScalar] == ScalarValue(info.smoothness)
    && MetallicScalar in instance.parameters && instance.parameters[MetallicScalar] == ScalarValue(info.metallic)
    && BaseColorTint in instance.parameters && instance.parameters[BaseColorTint] == VectorValue(info.tint)
  }

  /** The scalars and the tint are always set, and no texture parameter is
      touched. */
  lemma ScalarsSet(parameters: map<Parameter, ParameterValue>, info: M.MaterialInfo)
    ensures var r := WithScalars(parameters, info);
      (forall t :: Kept(parameters, r, TextureParameter(t))) && Carries(Instance(true, r), info)
  {
  }

  lemma OutcomeKept(before: map<Parameter, ParameterValue>, middle: map<Parameter, ParameterValue>,
                    after: map<Parameter, ParameterValue>, t: TextureSlot, found: Option<Texture>)
    requires TextureOutcome(before, middle, t, found) && Kept(middle, after, TextureParameter(t))
    ensures TextureOutcome(before, after, t, found)
  {
  }

  /** Sets the parameters of an instance from a material description. */
  function Configure(instance: Instance, info: M.MaterialInfo, candidates: seq<Option<Texture>>): Instance {
    Instance(instance.parentIsBase, WithScalars(SetTextures(instance.parameters, info, candidates, TextureSlots), info))
  }

  /** A configured instance has each texture parameter set to the texture
      its name finds, left as it was when none is found; the smoothness, the
      metallic value and the tint always come from the description. */
  lemma Configured(instance: Instance, info: M.MaterialInfo, candidates: seq<Option<Texture>>)
    ensures var r := Configure(instance, info, candidates);
      && r.parentIsBase == instance.parentIsBase
      && (forall t :: TextureOutcome(instance.parameters, r.parameters, t, Lookup(info, candidates, t)))
      && Carries(r, info)
  {
    var p := SetTextures(instance.parameters, info, candidates, TextureSlots);
    var q := WithScalars(p, info);
    TexturesSet(instance.parameters, info, candidates, TextureSlots);
    ScalarsSet(p, info);
    forall t ensures TextureOutcome(instance.parameters, q, t, Lookup(info, candidates, t)) {
      EveryTextureSlotSet(t);
      OutcomeKept(instance.parameters, p, q, t, Lookup(info, candidates, t));
    }
  }

  /** The instance for a material slot is named after the asset and the
      material, or after the slot's position when the material has no name. */
  function InstanceName(assetName: string, info: M.MaterialInfo, index: nat): string {
    "MI_" + assetName + "_" + (if info.name == "" then "Mat" + Text.NatToString(index) else info.name)
  }

  /** The registry key of an instance name: names that differ only in case
      are the same object. */
  function Key(name: string): string {
    Text.Lower(name)
  }

  /** Two names are the same registry key exactly when they are equal
      ignoring case. */
  lemma SameKey(a: string, b: string)
    ensures Key(a) == Key(b) <==> Text.EqualsIgnoreCase(a, b)
  {
    Text.EqualsIgnoreCaseIffLowerEqual(a, b);
  }

  /** The instance of that name: the existing one under its key, re-parented
      to the base material, or a new one, unless it cannot be created. */
  function Obtain(instances: map<string, Instance>, failed: set<string>, name: string): (r: Option<Instance>)
    ensures r.Some? <==> Key(name) in instances || Key(name) !in failed
    ensures r.Some? ==> r.value.parentIsBase
    ensures r.Some? && Key(name) in instances ==> r.value.parameters == instances[Key(name)].parameters
    ensures r.Some? && Key(name) !in instances ==> r.value.parameters == map[]
  {
    var key := Key(name);
    if key in instances then Some(instances[key].(parentIsBase := true))
    else if key in failed then None
    else Some(Instance(true, map[]))
  }

  // ---------------------------------------------------------------------------
  // Slots

  /** What a material slot holds: the material it was imported with, or the
      material instance under a registry key. */
  datatype Slot = ImportedMaterial(id: nat) | InstanceMaterial(key: string)

  datatype Asset =
    | SkeletalMesh(name: string, slots: seq<Slot>)
    | StaticMesh(name: string, slots: seq<Slot>)
    | OtherAsset

  /** The material descriptions of the first `n` meshes, in order. */
  function FlatUpTo(meshes: seq<M.MeshInfo>, n: nat): seq<M.MaterialInfo>
    requires n <= |meshes|
  {
    if n == 0 then [] else FlatUpTo(meshes, n - 1) + meshes[n - 1].materials
  }

  /** The material descriptions of all meshes, in order. */
  function Flat(meshes: seq<M.MeshInfo>): seq<M.MaterialInfo> {
    FlatUpTo(meshes, |meshes|)
  }

  datatype Applied = Applied(slots: seq<Slot>, instances: map<string, Instance>)

  /** Applies the description at position `k` to slot `k`. */
  function ApplyEntry(state: Applied, assetName: string, info: M.MaterialInfo, k: nat,
                      candidates: seq<Option<Texture>>, failed: set<string>): (r: Applied)
    requires k < |state.slots|
    ensures |r.slots| == |state.slots|
  {
    var name := InstanceName(assetName, info, k);
    match Obtain(state.instances, failed, name)
    case None => state
    case Some(instance) =>
      Applied(state.slots[k := InstanceMaterial(Key(name))], state.instances[Key(name) := Configure(instance, info, candidates)])
  }

  /** The reference: the first `n` descriptions applied one after another. */
  function ApplyFirst(initial: Applied, assetName: string, flat: seq<M.MaterialInfo>, n: nat,
                      candidates: seq<Option<Texture>>, failed: set<string>): (r: Applied)
    requires n <= |flat| && n <= |initial.slots|
    ensures |r.slots| == |initial.slots|
  {
    if n == 0 then initial
    else ApplyEntry(ApplyFirst(initial, assetName, flat, n - 1, candidates, failed), assetName, flat[n - 1], n - 1, candidates, failed)
  }

  function Min(a: nat, b: nat): nat {
    if a <= b then a else b
  }

  lemma {:induction false} FlatPrefix(meshes: seq<M.MeshInfo>, i: nat, n: nat)
    requires i <= n <= |meshes|
    ensures FlatUpTo(meshes, i) <= FlatUpTo(meshes, n)
    decreases n
  {
    if i < n {
      FlatPrefix(meshes, i, n - 1);
    }
  }

  /** Material `j` of mesh `i` is at position |FlatUpTo(meshes, i)| + j. */
  lemma FlatIndex(meshes: seq<M.MeshInfo>, i: nat, j: nat)
    requires i < |meshes| && j < |meshes[i].materials|
    ensures |FlatUpTo(meshes, i)| + j < |Flat(meshes)|
    ensures Flat(meshes)[|FlatUpTo(meshes, i)| + j] == meshes[i].materials[j]
  {
    FlatPrefix(meshes, i + 1, |meshes|);
    assert FlatUpTo(meshes, i + 1)[|FlatUpTo(meshes, i)| + j] == meshes[i].materials[j];
  }

  /** The descriptions of mesh `i` follow those of the meshes before it. */
  lemma FlatSlice(meshes: seq<M.MeshInfo>, i: nat)
    requires i < |meshes|
    ensures |FlatUpTo(meshes, i + 1)| == |FlatUpTo(meshes, i)| + |meshes[i].materials| <= |Flat(meshes)|
    ensures forall j :: 0 <= j < |meshes[i].materials| ==>
      Flat(meshes)[|FlatUpTo(meshes, i)| + j] == meshes[i].materials[j]
  {
    FlatPrefix(meshes, i + 1, |meshes|);
    forall j | 0 <= j < |meshes[i].materials|
      ensures Flat(meshes)[|FlatUpTo(meshes, i)| + j] == meshes[i].materials[j]
    {
      FlatIndex(meshes, i, j);
    }
  }

  /** Where the loop stands: `index` is the last slot index tried, and the
      slots and instances are the first `done` descriptions applied. Before
      the slots run out, index + 1 == done; after, the index has passed the
      last slot and every slot has been tried. */
  predicate Progress(initial: Applied, assetName: string, flat: seq<M.MaterialInfo>, candidates: seq<Option<Texture>>,
                     failed: set<string>, slots: seq<Slot>, instances: map<string, Instance>, index: int, done: nat) {
    && |slots| == |initial.slots| && done <= |flat|
    && ((index + 1 == done && index + 1 <= |slots|) || (|slots| <= index && |slots| <= done))
    && Applied(slots, instances) == ApplyFirst(initial, assetName, flat, Min(done, |slots|), candidates, failed)
  }

  /** The next description goes on the next slot while there is one. */
  lemma Advance(initial: Applied, assetName: string, flat: seq<M.MaterialInfo>, candidates: seq<Option<Texture>>,
                failed: set<string>, slots: seq<Slot>, instances: map<string, Instance>, index: int, done: nat)
    requires Progress(initial, assetName, flat, candidates, failed, slots, instances, index, done)
    requires done < |flat| && index + 1 < |slots|
    ensures index + 1 == done
    ensures var r := ApplyEntry(Applied(slots, instances), assetName, flat[done], done, candidates, failed);
      Progress(initial, assetName, flat, candidates, failed, r.slots, r.instances, index + 1, done + 1)
  {
    assert Min(done, |slots|) == done && Min(done + 1, |slots|) == done + 1;
  }

  /** Once the index passes the last slot, the remaining descriptions of the
      mesh change nothing. */
  lemma RunOut(initial: Applied, assetName: string, flat: seq<M.MaterialInfo>, candidates: seq<Option<Texture>>,
               failed: set<string>, slots: seq<Slot>, instances: map<string, Instance>, index: int, done: nat, total: nat)
    requires Progress(initial, assetName, flat, candidates, failed, slots, instances, index, done)
    requires done <= total <= |flat| && |slots| <= index + 1
    ensures Progress(initial, assetName, flat, candidates, failed, slots, instances, index + 1, total)
  {
    assert Min(total, |slots|) == |slots| == Min(done, |slots|);
  }

  /** The inner loop of `ApplyMaterialMetadata`: the descriptions of one mesh,
      found at position `done` of all descriptions, each on the next slot,
      leaving the loop when the slots run out. */
  method ApplyMeshMaterials(assetName: string, materials: seq<M.MaterialInfo>, candidates: seq<Option<Texture>>,
                            failed: set<string>, slots: seq<Slot>, instances: map<string, Instance>, index: int,
                            ghost initial: Applied, ghost flat: seq<M.MaterialInfo>, ghost done: nat)
    returns (newSlots: seq<Slot>, newInstances: map<string, Instance>, newIndex: int)
    requires done + |materials| <= |flat|
    requires forall j :: 0 <= j < |materials| ==> flat[done + j] == materials[j]
    requires Progress(initial, assetName, flat, candidates, failed, slots, instances, index, done)
    ensures Progress(initial, assetName, flat, candidates, failed, newSlots, newInstances, newIndex, done + |materials|)
  {
    newSlots, newInstances, newIndex := slots, instances, index;
    var numSlots := |slots|;
    var j := 0;
    while j < |materials|
      invariant 0 <= j <= |materials|
      invariant Progress(initial, assetName, flat, candidates, failed, newSlots, newInstances, newIndex, done + j)
    {
      if newIndex + 1 >= numSlots {
        RunOut(initial, assetName, flat, candidates, failed, newSlots, newInstances, newIndex, done + j, done + |materials|);
        newIndex := newIndex + 1;
        return;
      }
      Advance(initial, assetName, flat, candidates, failed, newSlots, newInstances, newIndex, done + j);
      newIndex := newIndex + 1;
      var r := ApplyEntry(Applied(newSlots, newInstances), assetName, materials[j], newIndex, candidates, failed);
      newSlots, newInstances := r.slots, r.instances;
      j := j + 1;
    }
  }

  /** `ApplyMaterialMetadata`. The running slot index starts at -1 and moves
      on with every material description; running out of slots leaves only
      the inner loop, so the index keeps counting once per later mesh while
      nothing more is assigned. Without an asset or metadata, for an asset
      that is not a mesh, or for a mesh without slots, nothing changes;
      otherwise the result is the first min(slots, descriptions) descriptions
      applied in order. */
  method ApplyMaterialMetadata(asset: Option<Asset>, metadata: M.Metadata, candidates: seq<Option<Texture>>,
                               instances: map<string, Instance>, failed: set<string>)
    returns (newAsset: Option<Asset>, newInstances: map<string, Instance>)
    ensures asset.None? || metadata.meshes == [] || asset.value.OtherAsset? || asset.value.slots == [] ==>
      newAsset == asset && newInstances == instances
    ensures asset.Some? && !asset.value.OtherAsset? ==>
      var flat := Flat(metadata.meshes);
      var r := ApplyFirst(Applied(asset.value.slots, instances), asset.value.name, flat,
                          Min(|flat|, |asset.value.slots|), candidates, failed);
      newAsset == Some(asset.value.(slots := r.slots)) && newInstances == r.instances
  {
    newAsset, newInstances := asset, instances;
    if asset.None? || |metadata.meshes| == 0 {
      return;
    }
    var a := asset.value;
    if a.OtherAsset? {
      return;
    }
    if |a.slots| == 0 {
      return;
    }
    var meshes := metadata.meshes;
    ghost var flat := Flat(meshes);
    ghost var initial := Applied(a.slots, instances);
    var slots := a.slots;
    var index: int := -1;
    var i := 0;
    while i < |meshes|
      invariant 0 <= i <= |meshes|
      invariant |FlatUpTo(meshes, i)| <= |flat|
      invariant Progress(initial, a.name, flat, candidates, failed, slots, newInstances, index, |FlatUpTo(meshes, i)|)
    {
      FlatSlice(meshes, i);
      slots, newInstances, index := ApplyMeshMaterials(a.name, meshes[i].materials, candidates, failed,
        slots, newInstances, index, initial, flat, |FlatUpTo(meshes, i)|);
      i := i + 1;
    }
    newAsset := Some(a.(slots := slots));
  }

  // ---------------------------------------------------------------------------
  // What the application leaves behind

  /** An instance name can be had: an instance under its key exists
      already, or it can be created. */
  predicate Obtainable(instances: map<string, Instance>, failed: set<string>, name: string) {
    Key(name) in instances || Key(name) !in failed
  }

  /** Applying descriptions only adds instances, and only ones that could be
      created. */
  lemma {:induction false} InstancesGrow(initial: Applied, assetName: string, flat: seq<M.MaterialInfo>, n: nat,
                                         candidates: seq<Option<Texture>>, failed: set<string>)
    requires n <= |flat| && n <= |initial.slots|
    ensures initial.instances.Keys <= ApplyFirst(initial, assetName, flat, n, candidates, failed).instances.Keys
    ensures forall key :: key in ApplyFirst(initial, assetName, flat, n, candidates, failed).instances ==>
      key in initial.instances || key !in failed
  {
    if n > 0 {
      InstancesGrow(initial, assetName, flat, n - 1, candidates, failed);
    }
  }

  /** Slot k ends up with the instance named for description k exactly when
      k is among the descriptions applied and that instance can be had;
      otherwise it keeps its material. */
  lemma {:induction false} SlotsAssigned(initial: Applied, assetName: string, flat: seq<M.MaterialInfo>, n: nat,
                                         candidates: seq<Option<Texture>>, failed: set<string>, k: nat)
    requires n <= |flat| && n <= |initial.slots| && k < |initial.slots|
    ensures ApplyFirst(initial, assetName, flat, n, candidates, failed).slots[k] ==
      if k < n && Obtainable(initial.instances, failed, InstanceName(assetName, flat[k], k))
      then InstanceMaterial(Key(InstanceName(assetName, flat[k], k)))
      else initial.slots[k]
  {
    if n > 0 {
      var prev := ApplyFirst(initial, assetName, flat, n - 1, candidates, failed);
      SlotsAssigned(initial, assetName, flat, n - 1, candidates, failed, k);
      InstancesGrow(initial, assetName, flat, n - 1, candidates, failed);
      var name := InstanceName(assetName, flat[n - 1], n - 1);
      assert Obtain(prev.instances, failed, name).Some? <==> Obtainable(initial.instances, failed, name);
      if Obtainable(initial.instances, failed, name) {
        assert ApplyFirst(initial, assetName, flat, n, candidates, failed).slots == prev.slots[n - 1 := InstanceMaterial(Key(name))];
      } else {
        assert ApplyFirst(initial, assetName, flat, n, candidates, failed).slots == prev.slots;
      }
    }
  }

  /** Every texture `info` names that is among the candidates is set on
      `instance`. */
  predicate FoundTextures(instance: Instance, info: M.MaterialInfo, candidates: seq<Option<Texture>>) {
    forall t :: Lookup(info, candidates, t).Some? ==>
      TextureParameter(t) in instance.parameters &&
      instance.parameters[TextureParameter(t)] == TextureValue(Lookup(info, candidates, t).value)
  }

  /** `instance` is what description `info` makes of a material instance:
      parented to the base material, with the description's scalars and tint
      and every texture of it that was found. */
  predicate Reflects(instance: Instance, info: M.MaterialInfo, candidates: seq<Option<Texture>>) {
    instance.parentIsBase && Carries(instance, info) && FoundTextures(instance, info, candidates)
  }

  /** Applying a description whose instance can be had leaves the instance
      under its key reflecting the description. */
  lemma EntrySets(state: Applied, assetName: string, info: M.MaterialInfo, k: nat,
                  candidates: seq<Option<Texture>>, failed: set<string>)
    requires k < |state.slots| && Obtainable(state.instances, failed, InstanceName(assetName, info, k))
    ensures var r := ApplyEntry(state, assetName, info, k, candidates, failed);
      var key := Key(InstanceName(assetName, info, k));
      key in r.instances && Reflects(r.instances[key], info, candidates)
  {
    var name := InstanceName(assetName, info, k);
    var instance := Obtain(state.instances, failed, name).value;
    Configured(instance, info, candidates);
    var c := Configure(instance, info, candidates);
    forall t | Lookup(info, candidates, t).Some?
      ensures TextureParameter(t) in c.parameters && c.parameters[TextureParameter(t)] == TextureValue(Lookup(info, candidates, t).value)
    {
      assert TextureOutcome(instance.parameters, c.parameters, t, Lookup(info, candidates, t));
    }
  }

  /** Applying a description leaves the instance of any name that differs
      from its instance name other than in case as it was. */
  lemma EntryKeepsOthers(state: Applied, assetName: string, info: M.MaterialInfo, k: nat,
                         candidates: seq<Option<Texture>>, failed: set<string>, name: string)
    requires k < |state.slots| && !Text.EqualsIgnoreCase(name, InstanceName(assetName, info, k))
    ensures var r := ApplyEntry(state, assetName, info, k, candidates, failed);
      (Key(name) in r.instances <==> Key(name) in state.instances) &&
      (Key(name) in state.instances ==> r.instances[Key(name)] == state.instances[Key(name)])
  {
    SameKey(name, InstanceName(assetName, info, k));
  }

  /** The instance named for description k, when no later description
      applied has the same name ignoring case, reflects that description: it
      has the base material as its parent, that description's smoothness,
      metallic value and tint, and every texture of it that was found. An
      earlier description of the same name, in any case, is overwritten. */
  lemma {:induction false} LastDescriptionWins(initial: Applied, assetName: string, flat: seq<M.MaterialInfo>, n: nat,
                                               candidates: seq<Option<Texture>>, failed: set<string>, k: nat)
    requires n <= |flat| && n <= |initial.slots| && k < n
    requires Obtainable(initial.instances, failed, InstanceName(assetName, flat[k], k))
    requires forall later :: k < later < n ==> !Text.EqualsIgnoreCase(InstanceName(assetName, flat[k], k), InstanceName(assetName, flat[later], later))
    ensures var instances := ApplyFirst(initial, assetName, flat, n, candidates, failed).instances;
      var key := Key(InstanceName(assetName, flat[k], k));
      key in instances && Reflects(instances[key], flat[k], candidates)
  {
    var prev := ApplyFirst(initial, assetName, flat, n - 1, candidates, failed);
    var name := InstanceName(assetName, flat[k], k);
    if k < n - 1 {
      LastDescriptionWins(initial, assetName, flat, n - 1, candidates, failed, k);
      EntryKeepsOthers(prev, assetName, flat[n - 1], n - 1, candidates, failed, name);
    } else {
      InstancesGrow(initial, assetName, flat, n - 1, candidates, failed);
      EntrySets(prev, assetName, flat[k], k, candidates, failed);
    }
  }

  /** Descriptions whose instance names differ only in case share one
      instance: both slots hold the same registry entry. */
  lemma CaseVariantsShareInstance(initial: Applied, assetName: string, flat: seq<M.MaterialInfo>, n: nat,
                                  candidates: seq<Option<Texture>>, failed: set<string>, k1: nat, k2: nat)
    requires n <= |flat| && n <= |initial.slots| && k1 < n && k2 < n
    requires Obtainable(initial.instances, failed, InstanceName(assetName, flat[k1], k1))
    requires Text.EqualsIgnoreCase(InstanceName(assetName, flat[k1], k1), InstanceName(assetName, flat[k2], k2))
    ensures var slots := ApplyFirst(initial, assetName, flat, n, candidates, failed).slots;
      slots[k1].InstanceMaterial? && slots[k1] == slots[k2]
  {
    SameKey(InstanceName(assetName, flat[k1], k1), InstanceName(assetName, flat[k2], k2));
    SlotsAssigned(initial, assetName, flat, n, candidates, failed, k1);
    SlotsAssigned(initial, assetName, flat, n, candidates, failed, k2);
  }
}
