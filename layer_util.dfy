/**
  Layer validation and layer discovery (LayerUtil): which layers of a map
  count as usable GIS layers, and the searches that pick one layer out of
  the map's layer enumeration by name, by the "Service" browse name, or by
  feature-class name ignoring case.
 */
module LayerUtil {
  import opened FirstMatch

  /** The table a layer displays: a relationship-query (join) table, whose
      destination may or may not be an object class, or any other table. */
  datatype DisplayTable = RelQueryTable(destinationIsObjectClass: bool) | OtherTable

  /** The three kinds of workspace a layer's data can live in. */
  datatype WorkspaceType = FileSystemWorkspace | LocalDatabaseWorkspace | RemoteDatabaseWorkspace

  /** What the searches read of a layer. `displayTable` is `None` when the
      layer is not a display-table layer; `browseName` and `workspaceType`
      are those of the layer's dataset. */
  datatype Layer = Layer(
    valid: bool,
    isGeoFeatureLayer: bool,
    isXYEventSource: bool,
    displayTable: Option<DisplayTable>,
    name: string,
    browseName: string,
    workspaceType: WorkspaceType)

  /** A map, reduced to its layers in enumeration order. */
  datatype GisMap = GisMap(layers: seq<Layer>)
  {
    function LayerCount(): nat {
      |layers|
    }
  }

  /** The layer displays a join whose destination is not an object class. */
  predicate JoinedToNonObjectClass(layer: Layer) {
    layer.displayTable == Some(RelQueryTable(false))
  }

  /** A usable GIS layer: valid, a geo-feature layer, not over an XY event
      source, and not joined to a table that is not an object class. */
  function IsValidGisLayer(layer: Layer): (r: bool)
    ensures r ==> layer.valid && layer.isGeoFeatureLayer
    ensures layer.isXYEventSource ==> !r
    ensures JoinedToNonObjectClass(layer) ==> !r
    ensures (layer.valid && layer.isGeoFeatureLayer && !layer.isXYEventSource &&
             !JoinedToNonObjectClass(layer)) ==> r
  {
    if layer.valid && layer.isGeoFeatureLayer then
      if layer.isXYEventSource then false
      else match layer.displayTable
        case Some(RelQueryTable(destinationIsObjectClass)) => destinationIsObjectClass
        case _ => true
    else false
  }

  /** Upper-casing of one character (ASCII letters only). */
  function UpperChar(c: char): char {
    if 'a' <= c <= 'z' then (c as int - 32) as char else c
  }

  /** Upper-casing of a string, character by character: the length is kept
      and no ASCII lower-case letter is left. */
  function ToUpper(s: string): (r: string)
    ensures |r| == |s|
    ensures forall i :: 0 <= i < |r| ==> !('a' <= r[i] <= 'z')
  {
    seq(|s|, i requires 0 <= i < |s| => UpperChar(s[i]))
  }

  /** Two names are the same when their upper-cased forms are. */
  predicate EqualIgnoringCase(a: string, b: string) {
    ToUpper(a) == ToUpper(b)
  }

  /** Two characters are the same letter up to case: equal, or one is the
      ASCII lower-case form of the other. */
  predicate SameLetter(x: char, y: char) {
    x == y ||
    ('a' <= x <= 'z' && y as int == x as int - 32) ||
    ('a' <= y <= 'z' && x as int == y as int - 32)
  }

  /** The upper-cased comparison of GetLayerForFeatureClass holds exactly
      when the two names have the same length and agree position by
      position up to the case of ASCII letters. */
  lemma EqualIgnoringCaseIff(a: string, b: string)
    ensures EqualIgnoringCase(a, b) <==>
      |a| == |b| && forall i :: 0 <= i < |a| ==> SameLetter(a[i], b[i])
  {
    if |a| == |b| {
      if forall i :: 0 <= i < |a| ==> SameLetter(a[i], b[i]) {
        assert forall i :: 0 <= i < |a| ==> ToUpper(a)[i] == ToUpper(b)[i];
      }
      if EqualIgnoringCase(a, b) {
        forall i | 0 <= i < |a|
          ensures SameLetter(a[i], b[i])
        {
          assert ToUpper(a)[i] == ToUpper(b)[i];
        }
      }
    }
  }

  /** Upper-casing twice is upper-casing once. */
  lemma ToUpperIdempotent(s: string)
    ensures ToUpper(ToUpper(s)) == ToUpper(s)
  {
  }

  /** The test each search applies to a layer. */
  datatype Criterion =
    | ByName(layerName: string)
    | ServiceLocation
    | ForFeatureClass(featureName: string)

  predicate Matches(c: Criterion, layer: Layer) {
    match c
    case ByName(layerName) => layer.name == layerName
    case ServiceLocation => IsValidGisLayer(layer) && layer.isGeoFeatureLayer && layer.browseName == "Service"
    case ForFeatureClass(featureName) => IsValidGisLayer(layer) && EqualIgnoringCase(layer.browseName, featureName)
  }

  function MatchesOf(c: Criterion): Layer -> bool {
    layer => Matches(c, layer)
  }

  /** The first layer of `layers` that meets `c`, or `None` (null) when none does. */
  function FoundLayer(layers: seq<Layer>, c: Criterion): (r: Option<Layer>)
    ensures r.None? <==> forall k :: 0 <= k < |layers| ==> !Matches(c, layers[k])
    ensures r.Some? ==> Matches(c, r.value)
    ensures r.Some? ==> exists j :: (0 <= j < |layers| && layers[j] == r.value &&
                                     forall k :: 0 <= k < j ==> !Matches(c, layers[k]))
  {
    match FirstIndex(layers, MatchesOf(c))
    case None => None
    case Some(j) => Some(layers[j])
  }

  /** ReturnLayerByName: walk the map's layers and return the first whose
      name is exactly `layerName`. */
  method ReturnLayerByName(gisMap: GisMap, layerName: string) returns (layer: Option<Layer>)
    ensures layer == FoundLayer(gisMap.layers, ByName(layerName))
  {
    var i := 0;
    while i < |gisMap.layers|
      invariant 0 <= i <= |gisMap.layers|
      invariant forall k :: 0 <= k < i ==> gisMap.layers[k].name != layerName
    {
      if gisMap.layers[i].name == layerName {
        FirstIndexIs(gisMap.layers, MatchesOf(ByName(layerName)), i);
        return Some(gisMap.layers[i]);
      }
      i := i + 1;
    }
    return None;
  }

  /** ReturnServiceLocationLayerByUtility: walk the map's layers and return
      the first usable geo-feature layer whose browse name is "Service". */
  method ReturnServiceLocationLayerByUtility(gisMap: GisMap) returns (layer: Option<Layer>)
    ensures layer == FoundLayer(gisMap.layers, ServiceLocation)
  {
    var i := 0;
    while i < |gisMap.layers|
      invariant 0 <= i <= |gisMap.layers|
      invariant forall k :: 0 <= k < i ==> !Matches(ServiceLocation, gisMap.layers[k])
    {
      var candidate := gisMap.layers[i];
      if IsValidGisLayer(candidate) && candidate.isGeoFeatureLayer {
        var sName := candidate.browseName;
        if sName == "Service" {
          FirstIndexIs(gisMap.layers, MatchesOf(ServiceLocation), i);
          return Some(candidate);
        }
      }
      i := i + 1;
    }
    return None;
  }

  /** GetLayerForFeatureClass: an empty map has no such layer; otherwise walk
      the layers and return the first usable one whose browse name equals
      `featureName` once both are upper-cased. The name compared is
      `featureName` whatever the layer's workspace type. */
  method GetLayerForFeatureClass(featureName: string, gisMap: GisMap) returns (layer: Option<Layer>)
    ensures gisMap.LayerCount() == 0 ==> layer == None
    ensures layer == FoundLayer(gisMap.layers, ForFeatureClass(featureName))
  {
    if gisMap.LayerCount() == 0 {
      return None;
    }
    var i := 0;
    while i < |gisMap.layers|
      invariant 0 <= i <= |gisMap.layers|
      invariant forall k :: 0 <= k < i ==> !Matches(ForFeatureClass(featureName), gisMap.layers[k])
    {
      var candidate := gisMap.layers[i];
      if IsValidGisLayer(candidate) {
        var sFeatureName;
        if candidate.workspaceType != RemoteDatabaseWorkspace {
          sFeatureName := featureName;
        } else {
          sFeatureName := featureName;
        }
        if ToUpper(candidate.browseName) == ToUpper(sFeatureName) {
          FirstIndexIs(gisMap.layers, MatchesOf(ForFeatureClass(featureName)), i);
          return Some(candidate);
        }
      }
      i := i + 1;
    }
    return None;
  }

  /** The geo-feature test that ReturnServiceLocationLayerByUtility adds to
      IsValidGisLayer never rejects a layer: the search is the same as one
      that only asks for a usable layer named "Service". */
  lemma ServiceLocationGeoTestRedundant(layers: seq<Layer>)
    ensures FirstIndex(layers, MatchesOf(ServiceLocation))
         == FirstIndex(layers, (l: Layer) => IsValidGisLayer(l) && l.browseName == "Service")
  {
  }

  /** The workspace type of a layer does not affect GetLayerForFeatureClass:
      two maps that differ only in their layers' workspace types have their
      match at the same position. The test `Matches` never reads the
      workspace type, so this holds by construction; that the two-armed
      branch in the loop computes that test is GetLayerForFeatureClass's
      own postcondition. */
  lemma WorkspaceTypeIrrelevant(layers: seq<Layer>, others: seq<Layer>, featureName: string)
    requires |layers| == |others|
    requires forall k :: 0 <= k < |layers| ==>
      layers[k].(workspaceType := others[k].workspaceType) == others[k]
    ensures FirstIndex(layers, MatchesOf(ForFeatureClass(featureName)))
         == FirstIndex(others, MatchesOf(ForFeatureClass(featureName)))
  {
  }

  /** For maps without group layers, where the recursive enumeration of
      ReturnServiceLocationLayerByUtility and the default enumeration of
      GetLayerForFeatureClass are the same sequence: any map in which the
      first finds a layer also yields a layer to the second for any
      spelling of "Service", and that layer comes no later. */
  lemma ServiceLocationFoundByFeatureClass(layers: seq<Layer>, featureName: string)
    requires EqualIgnoringCase(featureName, "Service")
    requires FirstIndex(layers, MatchesOf(ServiceLocation)).Some?
    ensures FirstIndex(layers, MatchesOf(ForFeatureClass(featureName))).Some?
    ensures FirstIndex(layers, MatchesOf(ForFeatureClass(featureName))).value
         <= FirstIndex(layers, MatchesOf(ServiceLocation)).value
  {
  }

  /** "MyLayer" and "mylayer" are the same name to GetLayerForFeatureClass. */
  lemma CaseInsensitiveExample()
    ensures EqualIgnoringCase("MyLayer", "mylayer")
    ensures !EqualIgnoringCase("MyLayer", "MyLayers")
  {
  }
}
