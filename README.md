# Geofunctions panel controller, modelled in Dafny

This project models the controller of the `geofunctions` map panel
(`geofunctions/component.js`). The user picks a geofunction that belongs to
the current map theme. The controller attaches the matching draw interaction
(point, line or polygon). When the drawing ends, it sends the drawn
coordinates to the geofunction's web service as a query string opened in a
new window.

Three parts are modelled:

- **Theme filter** (`Themes`, `Geofunctions.Controller.UpdateTheme`): the
  fetched definitions are narrowed to those whose `theme_name` is the current
  theme. This happens only once that theme is among the names the GMF themes
  service lists; before that, the previous list is kept.
- **Drawing session** (`Geometry`, `Geofunctions.Controller`): a class with
  the controller's own fields (`selectedTheme`, `activeInteraction`,
  `activeTool`, `layerAdded`, `geomText`). It also has fields for what it does
  to its collaborators: the map's attached draw interactions, a count of
  layer additions, the tool manager's active tools, the source's feature
  count, the last mode passed to `iconcallback`, the URLs passed to
  `window.open`, and the `setTimeout` callbacks still waiting. Every
  event handler (`Select`, `OnThemeNameSet`, `RunPanelCheck`, `DrawEnd`, …)
  keeps `Valid()`. The helpers it calls keep the weaker `Consistent()`.
  Hence at most one draw interaction is attached after any sequence of
  events. Only that interaction's tool is active. It is the one that
  matches the selected geofunction's `type_geom`.
- **Outbound request** (`ExternalService`, `Decimal`, `Base64`): the URL
  `<webservice>?THEME=<theme>&NRCOORD=<n>&COORD=<x1>,<y1>;…[&USER=<btoa(user)>]`.
  A method builds it with the source's loop and is proved equal to a
  specification function. Lemmas show what that function means: the points
  joined by `;`, the separator counts, the empty case, and when `&USER=`
  is added. `btoa` is modelled in full: Latin-1 check, then the base 64
  encoding of section 4 of RFC 4648, proved to decode back.

Three details of the code that the model keeps:

- `themeChanged` calls `resetMap` before it checks for the empty selection.
  Choosing the placeholder therefore also clears the drawing and the hint text.
- A failed `/get_theme_service` request leaves `themes` as it was. The list is
  not reset to empty. It is empty only because it starts that way.
- An unmapped `type_geom` does not raise an error. It reports an undefined
  mode, shows no hint text and attaches the polygon interaction.

Events from the host become method calls:

- the `THEME_NAME_SET` broadcast is `OnThemeNameSet`;
- the GMF themes `change` event is `OnGmfThemesChange`;
- the `/get_theme_service` response is `OnThemeServiceResponse`;
- the panel broadcast is `OnPanelChange`, and its delayed check is `RunPanelCheck`;
- the user's choice in the list (the binding write followed by `ng-change`) is `Select`;
- a finished drawing is `DrawEnd`, and its delayed clear is `RunDeferredClear`.

A `setTimeout` callback is a separate step that the caller runs later.

## Model

| member | source | states |
|---|---|---|
| `Base64.Btoa` | geofunctions/component.js:355 | `btoa` fails with `InvalidCharacterError` exactly when some character is outside Latin-1; otherwise it returns 4·⌈n/3⌉ characters |
| `Base64.Encode` | geofunctions/component.js:355 | the encoding of n bytes has 4·⌈n/3⌉ characters, all from the base 64 alphabet or `=` |
| `Base64.DecodeEncode` | geofunctions/component.js:355 | decoding the encoding of any byte sequence gives back that sequence |
| `Base64.BtoaRoundTrip` | geofunctions/component.js:355 | the `USER` value of a Latin-1 username decodes back to the username's character codes |
| `Base64.BtoaExample` | geofunctions/component.js:355 | `btoa("alice")` is `YWxpY2U=` |
| `Decimal.NatToStringDigits` | geofunctions/component.js:336 | the point count is printed as decimal digits with no leading zero |
| `Decimal.DigitsValueNatToString` | geofunctions/component.js:336 | the printed digits read back as the number |
| `Decimal.IntToStringChars` | geofunctions/component.js:339 | a printed coordinate consists of digits with an optional leading `-`, so it holds no `,` or `;` |
| `Decimal.IntToStringRoundTrip` | geofunctions/component.js:339 | a printed coordinate starts with `-` exactly when it is negative, and its digits read back as its absolute value |
| `Themes.ThemesNamed` | geofunctions/component.js:208 | the filter returns no more entries than it was given; each one carries the theme name and is one of the fetched entries |
| `Themes.ThemesNamedMembership` | geofunctions/component.js:208 | an entry is in the filtered list if and only if it was fetched and its `theme_name` equals the theme |
| `Themes.ThemesNamedCount` | geofunctions/component.js:208 | each matching entry is kept as many times as it occurs; every other entry is dropped |
| `Themes.ThemesNamedAppend` | geofunctions/component.js:208 | the filter keeps the original order: filtering a concatenation is concatenating the filtered parts |
| `Themes.ThemesNamedAllMatch` | geofunctions/component.js:208 | a list whose entries all carry the theme name comes back unchanged |
| `Themes.ThemesNamedIdempotent` | geofunctions/component.js:208 | filtering twice by the same theme gives the same list as filtering once |
| `Geometry.GeometryTypeOf` | geofunctions/component.js:113-117 | `point` maps to point, `length` to line and `area` to polygon, each if and only if; every other value maps to nothing |
| `Geometry.InteractionFor` | geofunctions/component.js:302-315 | point mode picks the point interaction and line mode the line interaction; every other value, including no mode, picks the polygon interaction |
| `Geometry.InteractionForTypeGeom` | geofunctions/component.js:302-315 | a `type_geom` gets the interaction that draws its mode's OpenLayers geometry type; any `type_geom` other than `point` and `length` gets the polygon interaction |
| `Geometry.InteractionForInjective` | geofunctions/component.js:132-136 | different modes get different interactions and different hint texts |
| `ExternalService.BuildServiceUrl` | geofunctions/component.js:330-356 | the loop that appends each coordinate and its separator, followed by the slice and the optional `&USER=`, returns exactly `ServiceUrl(...)` (or the `btoa` error) |
| `ExternalService.UrlStartsWithPrefix` | geofunctions/component.js:336 | every URL built starts with `<webservice>?THEME=<theme>&NRCOORD=<length/2>&COORD=` |
| `ExternalService.AppendedPairs` | geofunctions/component.js:338-345 | for an even, non-empty list, the loop's output is the points `x,y` joined by `;`, followed by one trailing `;` |
| `ExternalService.CoordTextPairs` | geofunctions/component.js:338-349 | for n > 0 pairs, the COORD value is the points joined by `;` with no trailing separator; it has n−1 `;` and n `,` |
| `ExternalService.EmptyCoordinates` | geofunctions/component.js:346-349 | an empty list gives `NRCOORD=0&COORD=` with an empty COORD value; nothing is sliced off |
| `ExternalService.UserComponent` | geofunctions/component.js:354-356 | `&USER=<btoa(username)>` ends the URL exactly when the username is non-empty and not `"undefined"`; otherwise the URL ends with the COORD value; the only failure is a non-Latin-1 username |
| `ExternalService.LineExample` | geofunctions/component.js:336-349 | `[0,0,10,0,10,10]` gives `NRCOORD=3&COORD=0,0;10,0;10,10` |
| `Geofunctions.Controller.constructor` | geofunctions/component.js:161-198 | after construction and `$onInit`, nothing is selected, attached, active, drawn or added, and no callback is waiting |
| `Geofunctions.Controller.SetBindings` | geofunctions/component.js:377-382 | the host's `panelactive` and `username` bindings take their new values |
| `Geofunctions.Controller.GeometryType` | geofunctions/component.js:366-368 | the selected geofunction has a mode exactly when its `type_geom` is `point`, `length` or `area` |
| `Geofunctions.Controller.UpdateTheme` | geofunctions/component.js:206-210 | when the current theme is one of the available names, `filteredThemes` becomes the fetched entries of that theme, in order; otherwise it is unchanged |
| `Geofunctions.Controller.OnThemeServiceResponse` | geofunctions/component.js:212-222 | a response replaces `themes` and refilters; a failed request changes nothing |
| `Geofunctions.Controller.OnGmfThemesChange` | geofunctions/component.js:150-158 | `availableGmfThemeNames` becomes the names of the GMF themes, in order, and the list is refiltered |
| `Geofunctions.Controller.ResetMap` | geofunctions/component.js:320-328 | the last interaction set, if any, is detached and its tool deactivated, so none is attached or active; the source is emptied; `geomText` is `''` |
| `Geofunctions.Controller.ResetState` | geofunctions/component.js:200-204 | in addition to `ResetMap`, the selection becomes null and a null mode is reported |
| `Geofunctions.Controller.AddLayer` | geofunctions/component.js:245-250 | the vector layer is added to the map once; later calls add nothing |
| `Geofunctions.Controller.AddInteractions` | geofunctions/component.js:302-318 | the interaction for the selected mode becomes the active one; it is the only one attached and the only tool active |
| `Geofunctions.Controller.ThemeChanged` | geofunctions/component.js:224-243 | with no selection, nothing is attached or active and a null mode is reported; with a selection, exactly its interaction is attached and active, its mode is reported, its hint text is shown and the layer is added; the source is empty either way; the layer, once added, is never added again, and the placeholder leaves the layer and the active interaction and tool as they were |
| `Geofunctions.Controller.Select` | geofunctions/component.js:224-243 | choosing an entry (or the placeholder) leaves the session that `ThemeChanged` describes for that choice, and keeps `Valid()`; the layer is added at most once, and the placeholder leaves the layer and the active interaction and tool as they were |
| `Geofunctions.Controller.OnThemeNameSet` | geofunctions/component.js:79-83 | a theme-name event records the theme, resets the session and refilters |
| `Geofunctions.Controller.OnPanelChange` | geofunctions/component.js:183-194 | a panel change only schedules a check for later |
| `Geofunctions.Controller.RunPanelCheck` | geofunctions/component.js:187-191 | the delayed check resets the session if the panel is closed; otherwise it changes nothing |
| `Geofunctions.Controller.QueryExternalService` | geofunctions/component.js:330-364 | the URL of the selected geofunction is opened and one delayed source clear is scheduled; when `btoa` throws, nothing is opened or scheduled |
| `Geofunctions.Controller.DrawEnd` | geofunctions/component.js:257-263 | only the attached interaction finishes drawings, and it belongs to the selected geofunction; the URL is opened before the new feature reaches the source, and exactly one delayed clear is scheduled per finished drawing |
| `Geofunctions.Controller.RunDeferredClear` | geofunctions/component.js:360-363 | the delayed clear empties the source |
| `Geofunctions.ValidAtMostOneDraw` | geofunctions/component.js:302-328 | the kept invariant implies that at most one draw interaction is attached and that only an attached one has its tool active |

## Left out

- `watertransportation/service.js` is not part of this model. It installs a global callback that opens an empty popup, and there is no logic in it to state.
- The `$http` request and the GMF `getThemesObject()` promise are not modelled. Their results are the parameters of `OnThemeServiceResponse` and `OnGmfThemesChange`.
- OpenLayers objects and styles (`Draw`, `VectorLayer`, `VectorSource`, the style at lines 163-181) are replaced by the kinds of `Geometry.DrawKind`, a set, and counters.
- The ngeo tool wrappers toggle a property named `geofunctionsPanelActive`, not the `active` flag of the `Draw`. The model keeps only which tools the manager holds active. It models `activateTool` as deactivating the rest of its group.
- `window.open` is modelled as appending the URL to `openedUrls`. The window name `Geofunction` and the feature string are not modelled.
- The `setTimeout` callbacks are counted in `pendingClears` and `pendingPanelChecks`. The caller runs them as separate steps, and concurrency is not modelled.
- Coordinates are modelled as integers printed in decimal. Fractional coordinates and JavaScript's exponent notation (at 1e21 and above) are not modelled. An odd-length list prints `NRCOORD` with a trailing `.5`, as `length / 2` does.
- The gettext translation is not modelled. `geomText` holds the message id of the mode. An unmapped mode's `undefined` text is modelled as the empty string, which is how an Angular template shows `undefined`.
- `iconMode`: `null` (reset, placeholder) and `undefined` (unmapped `type_geom`) are both modelled as `None`.
- `username`: an `undefined` or `null` binding is modelled as `""`. Each of them is falsy in the guard at line 354.
- Geometry.GeometryTypeOf: a `type_geom` equal to an inherited `Object.prototype` key (`constructor`, `toString`) is treated as unmapped. In JavaScript the lookup returns a function; `addInteractions` then still picks the polygon interaction.
- When `btoa` throws inside the `drawend` listener, the model adds no feature. This follows the dispatch order of OpenLayers `Draw`, which is not part of this model. What happens to the interaction's sketch is not modelled.
- A `response.data` without a `themes` field is not modelled. In the source it makes the filter throw.
