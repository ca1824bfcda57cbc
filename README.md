# ArcObjectsUtil: domain lookup and layer discovery

ArcObjectsUtil is a set of static helpers over a desktop GIS toolkit. Most
helpers hand their arguments straight to the toolkit. Two pieces hold logic
of their own, and this project models them and proves what they promise:

- **Coded-value domain lookup** (`GeoDBUtil.GetDomainDesc`). A coded-value
  domain pairs each code with a description. The lookup scans the codes in
  order and returns the description of the first code equal to the query,
  or `""` when no code is. The loop leaves early by setting its index to
  `CodeCount`. Module `GeoDBUtil` (geodb_util.dfy) keeps that loop as a
  method and proves it equal to a first-match specification.
- **Layer validation and layer search** (`LayerUtil`). `IsValidGisLayer`
  decides whether a layer is usable: valid, a geo-feature layer, not over an
  XY event source, and not joined to a relationship-query table whose
  destination is not an object class. Three searches walk a map's layers
  and return the first that passes their test, or null:
  `ReturnLayerByName` (exact name), `ReturnServiceLocationLayerByUtility`
  (usable geo-feature layer with browse name `"Service"`) and
  `GetLayerForFeatureClass` (usable layer whose browse name equals the
  feature name once both are upper-cased). Module `LayerUtil`
  (layer_util.dfy) keeps each search as a loop and proves it equal to the
  first-match specification for its test.

Module `FirstMatch` (first_match.dfy) defines the first-match search once:
`FirstIndex(s, p)` is the index of the first element of `s` satisfying `p`,
or `None`. Its contract says exactly that: the element found passes, every
earlier one fails, and `None` means no element passes. `None` stands for
the source's `null` result.

Layers, display tables and coded-value domains are values (datatypes). The
searches and the lookup only read them, so the model cannot change them.
A map is its layers in enumeration order; `LayerCount` is the number of
those layers.

Two places where the source text and its code disagree:

- LayerUtil.cs declares `ReturnServiceLocationLayerByUtility(IMap)` twice
  (lines 77-95 and 102-120) with identical bodies. C# would refuse the
  duplicate. The model has one method, which stands for both.
- The doc comment of `GetLayerForFeatureClass` (LayerUtil.cs:124) calls the
  match case-sensitive. The code compares upper-cased strings (line 153).
  The model follows the code.

## Model

| member | source | states |
|---|---|---|
| FirstMatch.FirstIndex | LayerUtil.cs:61-69 | the search stops at the first element that passes the test: that element passes and every earlier one fails; it returns nothing exactly when no element passes |
| GeoDBUtil.DomainDesc | GeoDBUtil.cs:16-25 | no matching code gives `""`; otherwise the result is the description at the smallest matching index; the result is always `""` or one of the domain's descriptions |
| GeoDBUtil.GetDomainDesc | GeoDBUtil.cs:14-26 | the loop that exits by setting `i` to `CodeCount` terminates, reads only indices below `CodeCount`, and returns exactly the first-match description |
| GeoDBUtil.LaterEntriesIgnored | GeoDBUtil.cs:19-22 | once a code is found, entries after it do not affect the result: appending entries to a domain that already holds the code leaves its description unchanged |
| GeoDBUtil.DomainDescExample | GeoDBUtil.cs:16-25 | for codes "1", "2", "3" with descriptions "A", "B", "C", code "2" yields "B" and code "9" yields "" |
| LayerUtil.IsValidGisLayer | LayerUtil.cs:19-48 | a usable layer is valid and a geo-feature layer; an XY event source or a join to a non-object-class destination makes it unusable; every other valid geo-feature layer is usable |
| LayerUtil.FoundLayer | LayerUtil.cs:61-69 | the result is null exactly when no layer passes the test; otherwise it passes the test and sits at a position where every earlier layer fails |
| LayerUtil.ReturnLayerByName | LayerUtil.cs:56-70 | returns the first layer in enumeration order whose name equals `layerName` exactly, or null when none does |
| LayerUtil.ReturnServiceLocationLayerByUtility | LayerUtil.cs:77-95 | returns the first usable geo-feature layer whose browse name is exactly `"Service"`, or null when none is |
| LayerUtil.GetLayerForFeatureClass | LayerUtil.cs:133-164 | null for a map with no layers; otherwise the first usable layer whose upper-cased browse name equals the upper-cased `featureName`, or null |
| LayerUtil.ServiceLocationGeoTestRedundant | LayerUtil.cs:83 | the extra geo-feature test in the service-location search never changes its result, because every usable layer is a geo-feature layer |
| LayerUtil.WorkspaceTypeIrrelevant | LayerUtil.cs:148-153 | maps whose layers differ only in workspace type give the feature-class match at the same position; this holds by construction because the test never reads the workspace type, and GetLayerForFeatureClass's postcondition is what shows the two-armed branch computes that test |
| LayerUtil.ServiceLocationFoundByFeatureClass | LayerUtil.cs:145-154 | for maps without group layers, where the recursive and the default enumerations coincide: when the service-location search finds a layer, the feature-class search for any case variant of "Service" finds one too, at the same or an earlier position |
| LayerUtil.ToUpper | LayerUtil.cs:153 | upper-casing keeps the length and leaves no ASCII lower-case letter |
| LayerUtil.EqualIgnoringCaseIff | LayerUtil.cs:153 | the upper-cased comparison holds exactly when both names have the same length and each pair of characters is equal or is the same ASCII letter in the other case |
| LayerUtil.ToUpperIdempotent | LayerUtil.cs:153 | upper-casing an upper-cased name changes nothing |
| LayerUtil.CaseInsensitiveExample | LayerUtil.cs:153 | "MyLayer" and "mylayer" name the same feature class; "MyLayer" and "MyLayers" do not |

## Left out

- `GeoDBUtil.ConnectWithFile` opens a database connection through the toolkit. It is I/O.
- `LayerUtil.SelectFeature` selects a feature and redraws the map inside the toolkit. It is a display side effect.
- QueryUtil.cs, SymbolUtil.cs and GeometryUtil.cs are not part of this model. They build toolkit filters, symbols, colours and floating-point geometries and hand them to the toolkit.
- The fault handling in `GetLayerForFeatureClass` (LayerUtil.cs:159-162) re-throws any fault raised inside the search as a generic fault with the same message. Such faults come from toolkit accessors and casts, which the model turns into record fields that cannot fail, and from a null `featureName`, which the model does not admit (next line). The model therefore has no fault path.
- Strings are never null in the model: codes, descriptions, layer names, browse names and the queried `sCode`, `layerName` and `featureName` are all `seq<char>`. In the source, `GetDomainDesc(d, null)` returns `""` (GeoDBUtil.cs:19), `ReturnLayerByName(m, null)` matches a layer whose `Name` is null (LayerUtil.cs:63), and `GetLayerForFeatureClass(null, m)` throws at `ToUpper` once it reaches a usable layer (LayerUtil.cs:153, re-thrown at 161).
- LayerUtil.ToUpper: upper-cases ASCII letters only. The source uses .NET `ToUpper`, whose culture rules are not modelled.
- A domain value's `ToString()` is not modelled: codes are given as strings.
- Toolkit type tests (`is IGeoFeatureLayer`, `is IXYEventSource`, `as IRelQueryTable`, `as IObjectClass`) are boolean fields or datatype cases of the layer record.
- The layer enumerator (`IEnumLayer.Next`) is a sequence walked by index. Group layers are not modelled. `ReturnServiceLocationLayerByUtility` asks for a recursive enumeration and the other two searches for the default one; in the model all three walk the same sequence.
- The searches return the layer record, not a reference to a toolkit object. Two equal records are not told apart.
