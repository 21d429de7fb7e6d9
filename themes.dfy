/**
 * The geofunction definitions listed by `/get_theme_service` and the filter
 * that keeps those belonging to the current map theme.
 */
module Themes {

  /**
   * One configured geofunction: JSON fields `theme_name`, `type_geom` and
   * `webservice` (further fields are not read by the controller).
   */
  datatype GeoFunctionTheme = GeoFunctionTheme(themeName: string, typeGeom: string, webservice: string)

  /** A map theme as listed by the GMF themes service; only its `name` is read. */
  datatype GmfTheme = GmfTheme(name: string)

  /** `themes.filter((item) => item.theme_name == name)`. */
  function ThemesNamed(themes: seq<GeoFunctionTheme>, name: string): (r: seq<GeoFunctionTheme>)
    ensures |r| <= |themes|
    ensures forall i :: 0 <= i < |r| ==> r[i].themeName == name && r[i] in themes
    decreases |themes|
  {
    if themes == [] then []
    else
      var rest := ThemesNamed(themes[..|themes| - 1], name);
      var last := themes[|themes| - 1];
      if last.themeName == name then rest + [last] else rest
  }

  /** An entry is kept exactly when it is listed and carries the theme name. */
  lemma {:induction false} ThemesNamedMembership(themes: seq<GeoFunctionTheme>, name: string, t: GeoFunctionTheme)
    ensures t in ThemesNamed(themes, name) <==> t in themes && t.themeName == name
    decreases |themes|
  {
    if themes != [] {
      var init := themes[..|themes| - 1];
      ThemesNamedMembership(init, name, t);
      assert themes == init + [themes[|themes| - 1]];
    }
  }

  /** The filter keeps every matching entry as often as it occurs and drops the rest. */
  lemma {:induction false} ThemesNamedCount(themes: seq<GeoFunctionTheme>, name: string, t: GeoFunctionTheme)
    ensures multiset(ThemesNamed(themes, name))[t] == if t.themeName == name then multiset(themes)[t] else 0
    decreases |themes|
  {
    if themes != [] {
      var init := themes[..|themes| - 1];
      ThemesNamedCount(init, name, t);
      assert themes == init + [themes[|themes| - 1]];
    }
  }

  /** The filter keeps the original order: it distributes over concatenation. */
  lemma {:induction false} ThemesNamedAppend(a: seq<GeoFunctionTheme>, b: seq<GeoFunctionTheme>, name: string)
    ensures ThemesNamed(a + b, name) == ThemesNamed(a, name) + ThemesNamed(b, name)
    decreases |b|
  {
    if b == [] {
      assert a + b == a;
    } else {
      var init := b[..|b| - 1];
      ThemesNamedAppend(a, init, name);
      assert (a + b)[..|a + b| - 1] == a + init;
      assert (a + b)[|a + b| - 1] == b[|b| - 1];
    }
  }

  /** A list whose entries all carry the theme name is left as it is. */
  lemma {:induction false} ThemesNamedAllMatch(themes: seq<GeoFunctionTheme>, name: string)
    requires forall i :: 0 <= i < |themes| ==> themes[i].themeName == name
    ensures ThemesNamed(themes, name) == themes
    decreases |themes|
  {
    if themes != [] {
      var init := themes[..|themes| - 1];
      ThemesNamedAllMatch(init, name);
      assert themes == init + [themes[|themes| - 1]];
    }
  }

  /** Filtering twice by the same name is filtering once. */
  lemma ThemesNamedIdempotent(themes: seq<GeoFunctionTheme>, name: string)
    ensures ThemesNamed(ThemesNamed(themes, name), name) == ThemesNamed(themes, name)
  {
    ThemesNamedAllMatch(ThemesNamed(themes, name), name);
  }
}
