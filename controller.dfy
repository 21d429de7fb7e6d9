/**
 * The geofunctions panel controller. The map, the ngeo tool manager, the
 * vector source, the icon callback, `window.open` and `setTimeout` are
 * replaced by fields that record what the controller does to them.
 */
module Geofunctions {
  import opened Wrappers
  import opened Base64
  import opened Themes
  import opened Geometry
  import opened ExternalService

  class Controller {
    // Host bindings.
    var panelactive: bool
    var username: string            // "" when the binding is undefined or null

    // Theme filter.
    var currentTheme: Option<string>
    var themes: seq<GeoFunctionTheme>
    var filteredThemes: seq<GeoFunctionTheme>
    var availableGmfThemeNames: seq<string>

    // Drawing session.
    var selectedTheme: Option<GeoFunctionTheme>
    var activeInteraction: Option<DrawKind>   // None while still `undefined`
    var activeTool: Option<DrawKind>
    var layerAdded: bool
    var geomText: string

    // The collaborators, as far as the controller changes them.
    var mapInteractions: set<DrawKind>   // draw interactions attached to the map
    var mapLayerAdds: nat                 // times the vector layer was added to the map
    var activeTools: set<DrawKind>        // tools of the group the tool manager holds active
    var featureCount: nat                 // features in the vector source
    var iconMode: Option<Mode>            // the last mode passed to `iconcallback`
    var openedUrls: seq<string>           // URLs passed to `window.open`
    var pendingClears: nat                // `source.clear()` calls waiting in `setTimeout`
    var pendingPanelChecks: nat           // panel checks waiting in `setTimeout`

    /** The interaction `resetMap` would detach: the last one set, if any. */
    ghost function Slot(): set<DrawKind>
      reads this
    {
      if activeInteraction.Some? then {activeInteraction.value} else {}
    }

    /** The bookkeeping every operation keeps, even between a selection and `themeChanged`. */
    ghost predicate Consistent()
      reads this
    {
      && activeTool == activeInteraction
      && activeTools == mapInteractions
      && mapInteractions <= Slot()
      && mapLayerAdds == (if layerAdded then 1 else 0)
    }

    /** Consistent, and an attached interaction always belongs to the selected geofunction. */
    ghost predicate Valid()
      reads this
    {
      && Consistent()
      && (mapInteractions != {} ==>
            && selectedTheme.Some?
            && activeInteraction == Some(InteractionFor(GeometryTypeOf(selectedTheme.value.typeGeom))))
    }

    /** At most one draw interaction is attached, and only an attached one has its tool active. */
    ghost predicate AtMostOneDraw()
      reads this
    {
      && (forall a, b :: a in mapInteractions && b in mapInteractions ==> a == b)
      && activeTools <= mapInteractions
    }

    /** The drawing state `themeChanged` leaves behind for a selection. */
    ghost predicate DrawingFor(selection: Option<GeoFunctionTheme>)
      reads this
    {
      && featureCount == 0
      && match selection
         case None =>
           mapInteractions == {} && activeTools == {} && iconMode == None && geomText == ""
         case Some(t) =>
           var m := GeometryTypeOf(t.typeGeom);
           var k := InteractionFor(m);
           && mapInteractions == {k} && activeTools == {k} && activeInteraction == Some(k)
           && iconMode == m && geomText == GeomTextFor(m)
           && layerAdded && mapLayerAdds == 1
    }

    /** The constructor followed by `$onInit`: nothing drawn, no layer, three registered inactive tools. */
    constructor (panelactive: bool, username: string)
      ensures Valid() && AtMostOneDraw()
      ensures this.panelactive == panelactive && this.username == username
      ensures currentTheme == None && themes == [] && filteredThemes == [] && availableGmfThemeNames == []
      ensures selectedTheme == None && activeInteraction == None && activeTool == None
      ensures !layerAdded && geomText == ""
      ensures mapInteractions == {} && mapLayerAdds == 0 && activeTools == {} && featureCount == 0
      ensures iconMode == None && openedUrls == [] && pendingClears == 0 && pendingPanelChecks == 0
    {
      this.panelactive := panelactive;
      this.username := username;
      currentTheme := None;
      themes := [];
      filteredThemes := [];
      availableGmfThemeNames := [];
      selectedTheme := None;
      activeInteraction := None;
      activeTool := None;
      layerAdded := false;
      geomText := "";
      mapInteractions := {};
      mapLayerAdds := 0;
      activeTools := {};
      featureCount := 0;
      iconMode := None;
      openedUrls := [];
      pendingClears := 0;
      pendingPanelChecks := 0;
    }

    /** A change of the host's one-way bindings. */
    method SetBindings(panelactive: bool, username: string)
      modifies this`panelactive, this`username
      ensures this.panelactive == panelactive && this.username == username
    {
      this.panelactive := panelactive;
      this.username := username;
    }

    /** `getGeometryType`: the mode of the selected geofunction. */
    function GeometryType(): (m: Option<Mode>)
      reads this
      requires selectedTheme.Some?
      ensures m.Some? <==> selectedTheme.value.typeGeom in {"point", "length", "area"}
    {
      GeometryTypeOf(selectedTheme.value.typeGeom)
    }

    /** `updateTheme`: refilter once the current theme is among the available ones, else keep the old list. */
    method UpdateTheme()
      modifies this`filteredThemes
      ensures filteredThemes ==
                if currentTheme.Some? && currentTheme.value in availableGmfThemeNames
                then ThemesNamed(themes, currentTheme.value)
                else old(filteredThemes)
    {
      if currentTheme.Some? && currentTheme.value in availableGmfThemeNames {
        filteredThemes := ThemesNamed(themes, currentTheme.value);
      }
    }

    /** The `/get_theme_service` response: a list of definitions, or None when the request failed. */
    method OnThemeServiceResponse(response: Option<seq<GeoFunctionTheme>>)
      modifies this`themes, this`filteredThemes
      ensures themes == if response.Some? then response.value else old(themes)
      ensures response.Some? && currentTheme.Some? && currentTheme.value in availableGmfThemeNames ==>
                filteredThemes == ThemesNamed(themes, currentTheme.value)
      ensures response.None? || currentTheme.None? || currentTheme.value !in availableGmfThemeNames ==>
                filteredThemes == old(filteredThemes)
    {
      if response.Some? {
        themes := response.value;
        UpdateTheme();
      }
    }

    /** The GMF themes `change` listener: rebuild the available names, then refilter. */
    method OnGmfThemesChange(gmfThemes: seq<GmfTheme>)
      modifies this`availableGmfThemeNames, this`filteredThemes
      ensures |availableGmfThemeNames| == |gmfThemes|
      ensures forall i :: 0 <= i < |gmfThemes| ==> availableGmfThemeNames[i] == gmfThemes[i].name
      ensures filteredThemes ==
                if currentTheme.Some? && currentTheme.value in availableGmfThemeNames
                then ThemesNamed(themes, currentTheme.value)
                else old(filteredThemes)
    {
      availableGmfThemeNames := [];
      for i := 0 to |gmfThemes|
        invariant |availableGmfThemeNames| == i
        invariant forall j :: 0 <= j < i ==> availableGmfThemeNames[j] == gmfThemes[j].name
        invariant filteredThemes == old(filteredThemes)
      {
        availableGmfThemeNames := availableGmfThemeNames + [gmfThemes[i].name];
      }
      UpdateTheme();
    }

    /** `resetMap`: detach and deactivate the last interaction if one was ever set, clear the source and the text. */
    method ResetMap()
      requires Consistent()
      modifies this`mapInteractions, this`activeTools, this`featureCount, this`geomText
      ensures Consistent()
      ensures mapInteractions == old(mapInteractions) - Slot() == {}
      ensures activeTools == old(activeTools) - Slot() == {}
      ensures featureCount == 0 && geomText == ""
    {
      if activeInteraction.Some? {
        mapInteractions := mapInteractions - {activeInteraction.value};
        activeTools := activeTools - {activeTool.value};
      }
      featureCount := 0;
      geomText := "";
    }

    /** `resetState`: `resetMap`, drop the selection and report no mode. */
    method ResetState()
      requires Consistent()
      modifies this`mapInteractions, this`activeTools, this`featureCount, this`geomText
      modifies this`selectedTheme, this`iconMode
      ensures Valid() && AtMostOneDraw()
      ensures selectedTheme == None && DrawingFor(None)
    {
      ResetMap();
      selectedTheme := None;
      iconMode := None;
    }

    /** `addLayer`: the vector layer is added to the map the first time only. */
    method AddLayer()
      requires Consistent()
      modifies this`layerAdded, this`mapLayerAdds
      ensures Consistent()
      ensures layerAdded && mapLayerAdds == 1
      ensures mapLayerAdds == old(mapLayerAdds) + (if old(layerAdded) then 0 else 1)
    {
      if !layerAdded {
        mapLayerAdds := mapLayerAdds + 1;
        layerAdded := true;
      }
    }

    /**
     * `addInteractions`: attach the interaction of the selected geofunction's
     * mode and activate its tool (the tool manager deactivates the rest of the
     * group). Its one caller has detached the previous interaction first.
     */
    method AddInteractions()
      requires Consistent() && selectedTheme.Some? && mapInteractions == {}
      modifies this`activeInteraction, this`activeTool, this`mapInteractions, this`activeTools
      ensures Valid()
      ensures var k := InteractionFor(GeometryType());
              activeInteraction == Some(k) && mapInteractions == {k} && activeTools == {k}
    {
      var k := InteractionFor(GeometryType());
      activeInteraction := Some(k);
      activeTool := Some(k);
      mapInteractions := mapInteractions + {k};
      activeTools := {k};
    }

    /** `themeChanged`: tear down, then set up the drawing session of the current selection, if any. */
    method ThemeChanged()
      requires Consistent()
      modifies this`mapInteractions, this`activeTools, this`featureCount, this`geomText, this`iconMode
      modifies this`layerAdded, this`mapLayerAdds, this`activeInteraction, this`activeTool
      ensures Valid() && AtMostOneDraw()
      ensures DrawingFor(selectedTheme)
      ensures (old(layerAdded) ==> layerAdded) && mapLayerAdds >= old(mapLayerAdds)
      ensures selectedTheme.None? ==>
                && layerAdded == old(layerAdded) && mapLayerAdds == old(mapLayerAdds)
                && activeInteraction == old(activeInteraction) && activeTool == old(activeTool)
    {
      ResetMap();
      if selectedTheme.None? {
        iconMode := None;
        return;
      }
      var m := GeometryType();
      iconMode := m;
      geomText := GeomTextFor(m);
      AddLayer();
      AddInteractions();
    }

    /** The user picks an entry of the list (the placeholder is None): the binding is written, then `themeChanged` runs. */
    method Select(selection: Option<GeoFunctionTheme>)
      requires Valid()
      modifies this`selectedTheme
      modifies this`mapInteractions, this`activeTools, this`featureCount, this`geomText, this`iconMode
      modifies this`layerAdded, this`mapLayerAdds, this`activeInteraction, this`activeTool
      ensures Valid() && AtMostOneDraw()
      ensures selectedTheme == selection && DrawingFor(selection)
      ensures (old(layerAdded) ==> layerAdded) && mapLayerAdds >= old(mapLayerAdds)
      ensures selection.None? ==>
                && layerAdded == old(layerAdded) && mapLayerAdds == old(mapLayerAdds)
                && activeInteraction == old(activeInteraction) && activeTool == old(activeTool)
    {
      selectedTheme := selection;
      ThemeChanged();
    }

    /** The THEME_NAME_SET broadcast: remember the theme, reset the session, refilter. */
    method OnThemeNameSet(name: string)
      requires Consistent()
      modifies this`currentTheme, this`filteredThemes
      modifies this`mapInteractions, this`activeTools, this`featureCount, this`geomText
      modifies this`selectedTheme, this`iconMode
      ensures Valid() && AtMostOneDraw()
      ensures currentTheme == Some(name)
      ensures selectedTheme == None && DrawingFor(None)
      ensures filteredThemes ==
                if name in availableGmfThemeNames then ThemesNamed(themes, name) else old(filteredThemes)
    {
      currentTheme := Some(name);
      ResetState();
      UpdateTheme();
    }

    /** The `geofunctionsPanelChange` broadcast: the panel check is deferred to a later tick. */
    method OnPanelChange()
      modifies this`pendingPanelChecks
      ensures pendingPanelChecks == old(pendingPanelChecks) + 1
    {
      pendingPanelChecks := pendingPanelChecks + 1;
    }

    /** A deferred panel check runs: a closed panel resets the session. */
    method RunPanelCheck()
      requires Consistent() && pendingPanelChecks > 0
      modifies this`pendingPanelChecks
      modifies this`mapInteractions, this`activeTools, this`featureCount, this`geomText
      modifies this`selectedTheme, this`iconMode
      ensures Consistent() && pendingPanelChecks == old(pendingPanelChecks) - 1
      ensures !panelactive ==> Valid() && AtMostOneDraw() && selectedTheme == None && DrawingFor(None)
      ensures panelactive ==>
                && mapInteractions == old(mapInteractions) && activeTools == old(activeTools)
                && featureCount == old(featureCount) && geomText == old(geomText)
                && selectedTheme == old(selectedTheme) && iconMode == old(iconMode)
    {
      pendingPanelChecks := pendingPanelChecks - 1;
      if !panelactive {
        ResetState();
      }
    }

    /**
     * `queryExternalService`: open the URL for the drawn coordinates and
     * defer clearing the source. When `btoa` throws nothing is opened.
     */
    method QueryExternalService(coords: seq<int>) returns (r: Result<string, Error>)
      requires selectedTheme.Some?
      modifies this`openedUrls, this`pendingClears
      ensures r == ServiceUrl(selectedTheme.value.webservice, selectedTheme.value.themeName, coords, username)
      ensures openedUrls == old(openedUrls) + (if r.Ok? then [r.value] else [])
      ensures pendingClears == old(pendingClears) + (if r.Ok? then 1 else 0)
    {
      r := BuildServiceUrl(selectedTheme.value.webservice, selectedTheme.value.themeName, coords, username);
      if r.Ok? {
        openedUrls := openedUrls + [r.value];
        pendingClears := pendingClears + 1;
      }
    }

    /**
     * A draw interaction finishes a geometry. Only an attached interaction
     * draws. The `drawend` listener runs before the interaction adds the new
     * feature to the source; an exception in the listener stops that addition.
     */
    method DrawEnd(k: DrawKind, coords: seq<int>) returns (r: Result<string, Error>)
      requires Valid() && k in mapInteractions
      modifies this`openedUrls, this`pendingClears, this`featureCount
      ensures Valid()
      ensures selectedTheme.Some? && k == InteractionFor(GeometryType())
      ensures r == ServiceUrl(selectedTheme.value.webservice, selectedTheme.value.themeName, coords, username)
      ensures openedUrls == old(openedUrls) + (if r.Ok? then [r.value] else [])
      ensures pendingClears == old(pendingClears) + (if r.Ok? then 1 else 0)
      ensures featureCount == old(featureCount) + (if r.Ok? then 1 else 0)
    {
      r := QueryExternalService(coords);
      if r.Ok? {
        featureCount := featureCount + 1;
      }
    }

    /** A deferred `source.clear()` runs. */
    method RunDeferredClear()
      requires pendingClears > 0
      modifies this`pendingClears, this`featureCount
      ensures pendingClears == old(pendingClears) - 1 && featureCount == 0
    {
      pendingClears := pendingClears - 1;
      featureCount := 0;
    }
  }

  /** The invariant every operation keeps implies the exclusivity of the draw interactions. */
  lemma ValidAtMostOneDraw(c: Controller)
    requires c.Consistent()
    ensures c.AtMostOneDraw()
    ensures |c.mapInteractions| <= 1
  {
    if c.mapInteractions != {} {
      assert c.mapInteractions == c.Slot();
    }
  }
}
