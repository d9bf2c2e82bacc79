/** Material interfaces as the export sees them, and the MetaHuman level of
    detail swap: an entry whose material has a "...HiLODs" counterpart among
    the component's materials is replaced by that counterpart.

    Object names compare ignoring case, as the engine's string comparison
    does. */
module Materials {
  import opened Wrappers
  import Text

  /** The material properties the export bakes, in the order it bakes them. */
  datatype Property = BaseColor | Normal | Roughness | Metallic | AmbientOcclusion | EmissiveColor | Opacity

  const PropertiesToBake: seq<Property> := [BaseColor, Normal, Roughness, Metallic, AmbientOcclusion, EmissiveColor, Opacity]

  /** A material interface: its identity, its object name, the name of its
      base material (None when it has none), and which of its properties are
      connected in the material graph. Equal references are the same
      object. */
  datatype MaterialRef = MaterialRef(id: nat, name: string, baseMaterialName: Option<string>, connected: set<Property>)

  const SkinMarker := "skin_unified_baked"

  /** `IsMetaHumanSkinMaterial`: the base material's name contains the
      MetaHuman skin marker, ignoring case. */
  predicate IsMetaHumanSkin(m: MaterialRef) {
    m.baseMaterialName.Some? && Text.ContainsIgnoreCase(m.baseMaterialName.value, SkinMarker)
  }

  // ---------------------------------------------------------------------------
  // Level of detail swap

  const HiLodSuffix := "HiLODs"

  predicate NameMatches(o: Option<MaterialRef>, target: string) {
    o.Some? && Text.EqualsIgnoreCase(o.value.name, target)
  }

  /** The last non-null option named `target`. */
  function LastMatch(options: seq<Option<MaterialRef>>, target: string): (r: Option<nat>)
    ensures r.Some? ==> r.value < |options| && NameMatches(options[r.value], target)
    ensures r.Some? ==> forall j :: r.value < j < |options| ==> !NameMatches(options[j], target)
    ensures r.None? <==> forall j :: 0 <= j < |options| ==> !NameMatches(options[j], target)
  {
    if |options| == 0 then None
    else if NameMatches(options[|options| - 1], target) then Some(|options| - 1)
    else LastMatch(options[..|options| - 1], target)
  }

  /** What one entry becomes: null stays null; a material whose name with
      "HiLODs" appended names an option becomes the last such option; any
      other material stays. */
  function SwapEntry(entry: Option<MaterialRef>, options: seq<Option<MaterialRef>>): (r: Option<MaterialRef>)
    ensures entry.None? ==> r.None?
    ensures entry.Some? ==> r.Some?
    ensures entry.Some? && LastMatch(options, entry.value.name + "HiLODs").None? ==> r == entry
    ensures r != entry ==> NameMatches(r, entry.value.name + "HiLODs") && r in options
    ensures entry.Some? && (exists j :: 0 <= j < |options| && NameMatches(options[j], entry.value.name + "HiLODs")) ==>
      exists k :: 0 <= k < |options| && r == options[k] &&
        forall j :: k < j < |options| ==> !NameMatches(options[j], entry.value.name + "HiLODs")
  {
    if entry.None? then entry
    else
      match LastMatch(options, entry.value.name + HiLodSuffix)
      case Some(k) => options[k]
      case None => entry
  }

  /** The swap applied to every entry: the specification of
      `SwapMetaHumanLodMaterials`. */
  function SwapLod(materials: seq<Option<MaterialRef>>, options: seq<Option<MaterialRef>>): (r: seq<Option<MaterialRef>>)
    ensures |r| == |materials|
    ensures forall i :: 0 <= i < |materials| ==> r[i] == SwapEntry(materials[i], options)
  {
    seq(|materials|, i requires 0 <= i < |materials| => SwapEntry(materials[i], options))
  }

  /** `SwapMetaHumanLodMaterials`: for each entry, scans every option and
      keeps overwriting the entry with each option whose name matches. */
  method SwapMetaHumanLodMaterials(materials: seq<Option<MaterialRef>>, options: seq<Option<MaterialRef>>)
    returns (swapped: seq<Option<MaterialRef>>)
    ensures swapped == SwapLod(materials, options)
    ensures |swapped| == |materials|
    ensures forall i :: 0 <= i < |materials| && materials[i].None? ==> swapped[i].None?
  {
    swapped := materials;
    for i := 0 to |materials|
      invariant |swapped| == |materials|
      invariant forall k :: 0 <= k < i ==> swapped[k] == SwapEntry(materials[k], options)
      invariant forall k :: i <= k < |materials| ==> swapped[k] == materials[k]
    {
      if materials[i].Some? {
        var target := materials[i].value.name + HiLodSuffix;
        var current := materials[i];
        for j := 0 to |options|
          invariant current == (match LastMatch(options[..j], target) case Some(k) => options[k] case None => materials[i])
        {
          assert options[..j + 1][..j] == options[..j];
          if options[j].Some? && Text.EqualsIgnoreCase(options[j].value.name, target) {
            current := options[j];
          }
        }
        assert options[..|options|] == options;
        swapped := swapped[i := current];
      }
    }
    assert swapped == SwapLod(materials, options);
  }

  /** Only the name matters: an eyelash material is swapped for its
      high-detail variant whatever the case of the suffix. */
  lemma SwapFindsHiLods(lash: MaterialRef, hi: MaterialRef, other: MaterialRef)
    requires Text.EqualsIgnoreCase(hi.name, lash.name + "HiLODs")
    requires !Text.EqualsIgnoreCase(other.name, lash.name + "HiLODs")
    ensures SwapLod([Some(lash), None], [Some(hi), Some(other), None]) == [Some(hi), None]
  {
    var options := [Some(hi), Some(other), None];
    var target := lash.name + HiLodSuffix;
    assert NameMatches(options[0], target) && !NameMatches(options[1], target) && !NameMatches(options[2], target);
    assert LastMatch(options, target) == Some(0);
  }
}
