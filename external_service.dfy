/**
 * The outbound request of `queryExternalService`:
 * `<webservice>?THEME=<theme>&NRCOORD=<n>&COORD=<x1>,<y1>;<x2>,<y2>...[&USER=<base64>]`.
 */
module ExternalService {
  import opened Wrappers
  import opened Decimal
  import opened Base64

  /** The character appended after the coordinate at index i: `,` after an x, `;` after a y. */
  function Separator(i: nat): char
  {
    if i % 2 == 0 then ',' else ';'
  }

  /** `length / 2` as JavaScript prints it: an odd length gives a trailing `.5`. */
  function HalfText(n: nat): string
  {
    NatToString(n / 2) + (if n % 2 == 1 then ".5" else "")
  }

  /** The fixed part of the URL, up to and including `COORD=`. */
  function Prefix(webservice: string, themeName: string, count: nat): string
  {
    webservice + "?THEME=" + themeName + "&NRCOORD=" + HalfText(count) + "&COORD="
  }

  /** What the loop has appended after the coordinates `cs`: each value followed by its separator. */
  function Appended(cs: seq<int>): (s: string)
    ensures |cs| > 0 ==> |s| > 0
    decreases |cs|
  {
    if cs == [] then "" else Appended(cs[..|cs| - 1]) + IntToString(cs[|cs| - 1]) + [Separator(|cs| - 1)]
  }

  /** The COORD value: the appended text with its one trailing separator sliced off. */
  function CoordText(cs: seq<int>): string
  {
    var s := Appended(cs);
    if |cs| > 0 then s[..|s| - 1] else s
  }

  /** True when `this.username && this.username !== 'undefined'`; an absent username is "". */
  predicate SendsUser(username: string)
  {
    username != "" && username != "undefined"
  }

  /** The `&USER=` component, or the error `btoa` throws. */
  function UserSuffix(username: string): Result<string, Error>
  {
    if SendsUser(username) then
      match Btoa(username)
      case Ok(encoded) => Ok("&USER=" + encoded)
      case Err(e) => Err(e)
    else Ok("")
  }

  /** The URL `queryExternalService` opens, or the exception that stops it. */
  function ServiceUrl(webservice: string, themeName: string, coords: seq<int>, username: string): Result<string, Error>
  {
    match UserSuffix(username)
    case Ok(suffix) => Ok(Prefix(webservice, themeName, |coords|) + CoordText(coords) + suffix)
    case Err(e) => Err(e)
  }

  /** Builds the URL as the source does: a loop appending value and separator, then one slice. */
  method BuildServiceUrl(webservice: string, themeName: string, coords: seq<int>, username: string)
    returns (r: Result<string, Error>)
    ensures r == ServiceUrl(webservice, themeName, coords, username)
  {
    var url := Prefix(webservice, themeName, |coords|);
    var i := 0;
    while i < |coords|
      invariant 0 <= i <= |coords|
      invariant url == Prefix(webservice, themeName, |coords|) + Appended(coords[..i])
    {
      AppendedStep(coords, i);
      url := url + IntToString(coords[i]);
      if i % 2 == 0 {
        url := url + ",";
      } else {
        url := url + ";";
      }
      i := i + 1;
    }
    assert coords[..i] == coords;
    if |coords| > 0 {
      DropLastOfAppend(Prefix(webservice, themeName, |coords|), Appended(coords));
      url := url[..|url| - 1];
    }
    assert url == Prefix(webservice, themeName, |coords|) + CoordText(coords);
    if SendsUser(username) {
      var encoded := Btoa(username);
      if encoded.Err? {
        return Err(encoded.error);
      }
      url := url + ("&USER=" + encoded.value);
    } else {
      assert url + "" == url;
    }
    r := Ok(url);
  }

  lemma AppendedStep(cs: seq<int>, i: nat)
    requires i < |cs|
    ensures forall p: string :: p + Appended(cs[..i + 1]) == p + Appended(cs[..i]) + IntToString(cs[i]) + [Separator(i)]
  {
    assert cs[..i + 1][..i] == cs[..i];
  }

  lemma DropLastOfAppend(p: string, a: string)
    requires |a| > 0
    ensures (p + a)[..|p + a| - 1] == p + a[..|a| - 1]
  {
  }

  // ---------------------------------------------------------------------
  // What the URL means, stated against an independent description of it.

  /** The points of an even-length flat coordinate list, each rendered `x,y`. */
  function PointTexts(cs: seq<int>): (ps: seq<string>)
    requires |cs| % 2 == 0
    ensures |ps| == |cs| / 2
    decreases |cs|
  {
    if cs == [] then []
    else PointTexts(cs[..|cs| - 2]) + [PointText(cs[|cs| - 2], cs[|cs| - 1])]
  }

  /** The parts joined by one separator character. */
  function Join(parts: seq<string>, sep: char): string
    decreases |parts|
  {
    if parts == [] then ""
    else if |parts| == 1 then parts[0]
    else Join(parts[..|parts| - 1], sep) + [sep] + parts[|parts| - 1]
  }

  /** The number of occurrences of a character. */
  function Count(s: string, c: char): nat
    decreases |s|
  {
    if s == [] then 0 else Count(s[..|s| - 1], c) + (if s[|s| - 1] == c then 1 else 0)
  }

  lemma {:induction false} CountAppend(a: string, b: string, c: char)
    ensures Count(a + b, c) == Count(a, c) + Count(b, c)
    decreases |b|
  {
    if b == [] {
      assert a + b == a;
    } else {
      CountAppend(a, b[..|b| - 1], c);
      assert (a + b)[..|a + b| - 1] == a + b[..|b| - 1];
    }
  }

  /** A rendered number holds neither separator. */
  lemma {:induction false} CountNumber(x: int, c: char)
    requires c == ',' || c == ';'
    ensures Count(IntToString(x), c) == 0
  {
    IntToStringChars(x);
    NoCountWithout(IntToString(x), c);
  }

  lemma {:induction false} NoCountWithout(s: string, c: char)
    requires forall i :: 0 <= i < |s| ==> s[i] != c
    ensures Count(s, c) == 0
    decreases |s|
  {
    if s != [] {
      NoCountWithout(s[..|s| - 1], c);
    }
  }

  /** The rendering of one point, `x,y`. */
  function PointText(x: int, y: int): string
  {
    IntToString(x) + "," + IntToString(y)
  }

  /** The loop appends a point `x,y` followed by `;`. */
  lemma AppendedLast(cs: seq<int>)
    requires |cs| >= 1
    ensures Appended(cs) == Appended(cs[..|cs| - 1]) + IntToString(cs[|cs| - 1]) + [Separator(|cs| - 1)]
  {
  }

  lemma AppendedBeforeLast(cs: seq<int>)
    requires |cs| >= 2
    ensures Appended(cs[..|cs| - 1]) == Appended(cs[..|cs| - 2]) + IntToString(cs[|cs| - 2]) + [Separator(|cs| - 2)]
  {
    var n := |cs|;
    AppendedLast(cs[..n - 1]);
    assert cs[..n - 1][..n - 2] == cs[..n - 2];
    assert cs[..n - 1][n - 2] == cs[n - 2];
  }

  lemma ConcatTwoSteps(a0: string, a1: string, a2: string, sx: string, sy: string, c1: char, c2: char)
    requires a1 == a0 + sx + [c1]
    requires a2 == a1 + sy + [c2]
    ensures a2 == a0 + (sx + [c1] + sy + [c2])
  {
  }

  lemma PairSeparators(n: nat)
    requires n >= 2 && n % 2 == 0
    ensures Separator(n - 2) == ',' && Separator(n - 1) == ';'
  {
  }

  /** The loop appends a point `x,y` followed by `;`. */
  lemma AppendedLastPair(cs: seq<int>)
    requires |cs| >= 2 && |cs| % 2 == 0
    ensures Appended(cs) == Appended(cs[..|cs| - 2]) + (PointText(cs[|cs| - 2], cs[|cs| - 1]) + ";")
  {
    var n := |cs|;
    AppendedLast(cs);
    AppendedBeforeLast(cs);
    ConcatTwoSteps(Appended(cs[..n - 2]), Appended(cs[..n - 1]), Appended(cs),
                   IntToString(cs[n - 2]), IntToString(cs[n - 1]), Separator(n - 2), Separator(n - 1));
    PairSeparators(n);
  }

  lemma JoinLast(parts: seq<string>, p: string, sep: char)
    requires |parts| > 0
    ensures Join(parts + [p], sep) == Join(parts, sep) + [sep] + p
  {
    assert (parts + [p])[..|parts|] == parts;
  }

  lemma PointTextsLast(cs: seq<int>)
    requires |cs| >= 2 && |cs| % 2 == 0
    ensures PointTexts(cs) == PointTexts(cs[..|cs| - 2]) + [PointText(cs[|cs| - 2], cs[|cs| - 1])]
  {
  }

  lemma ConcatPairStep(a: string, j0: string, p: string)
    requires a == j0 + ";"
    ensures a + (p + ";") == j0 + [';'] + p + ";"
  {
  }

  /** For pairs, the loop's output is the points joined by `;`, plus the trailing `;`. */
  lemma {:induction false} AppendedPairs(cs: seq<int>)
    requires |cs| % 2 == 0 && |cs| > 0
    ensures Appended(cs) == Join(PointTexts(cs), ';') + ";"
    decreases |cs|
  {
    var init := cs[..|cs| - 2];
    var p := PointText(cs[|cs| - 2], cs[|cs| - 1]);
    AppendedLastPair(cs);
    PointTextsLast(cs);
    if init == [] {
      assert PointTexts(cs) == [p];
      assert Appended(init) == "";
    } else {
      AppendedPairs(init);
      JoinLast(PointTexts(init), p, ';');
      ConcatPairStep(Appended(init), Join(PointTexts(init), ';'), p);
    }
  }

  /** The separator counts of a join of parts without separators. */
  lemma {:induction false} JoinCounts(parts: seq<string>)
    requires |parts| > 0
    requires forall i :: 0 <= i < |parts| ==> Count(parts[i], ';') == 0 && Count(parts[i], ',') == 1
    ensures Count(Join(parts, ';'), ';') == |parts| - 1
    ensures Count(Join(parts, ';'), ',') == |parts|
    decreases |parts|
  {
    if |parts| > 1 {
      var init := parts[..|parts| - 1];
      JoinCounts(init);
      var last := parts[|parts| - 1];
      CountAppend(Join(init, ';') + ";", last, ';');
      CountAppend(Join(init, ';'), ";", ';');
      CountAppend(Join(init, ';') + ";", last, ',');
      CountAppend(Join(init, ';'), ";", ',');
      assert Count(";", ';') == 1 by { assert ";"[..0] == ""; }
      assert Count(";", ',') == 0 by { assert ";"[..0] == ""; }
    }
  }

  lemma PointTextCounts(x: int, y: int)
    ensures Count(PointText(x, y), ';') == 0
    ensures Count(PointText(x, y), ',') == 1
  {
    CountNumber(x, ';');
    CountNumber(y, ';');
    CountNumber(x, ',');
    CountNumber(y, ',');
    CountAppend(IntToString(x) + ",", IntToString(y), ';');
    CountAppend(IntToString(x), ",", ';');
    CountAppend(IntToString(x) + ",", IntToString(y), ',');
    CountAppend(IntToString(x), ",", ',');
    assert Count(",", ',') == 1 by { assert ","[..0] == ""; }
    assert Count(",", ';') == 0 by { assert ","[..0] == ""; }
  }

  lemma {:induction false} PointTextsCounts(cs: seq<int>)
    requires |cs| % 2 == 0
    ensures forall i :: 0 <= i < |PointTexts(cs)| ==>
              Count(PointTexts(cs)[i], ';') == 0 && Count(PointTexts(cs)[i], ',') == 1
    decreases |cs|
  {
    if cs != [] {
      PointTextsCounts(cs[..|cs| - 2]);
      PointTextCounts(cs[|cs| - 2], cs[|cs| - 1]);
    }
  }

  /**
   * For n > 0 pairs the COORD value is the points `x,y` joined by `;`, with
   * no trailing separator: n - 1 semicolons and n commas.
   */
  lemma CoordTextPairs(cs: seq<int>)
    requires |cs| % 2 == 0 && |cs| > 0
    ensures CoordText(cs) == Join(PointTexts(cs), ';')
    ensures Count(CoordText(cs), ';') == |cs| / 2 - 1
    ensures Count(CoordText(cs), ',') == |cs| / 2
  {
    AppendedPairs(cs);
    var j := Join(PointTexts(cs), ';');
    assert (j + ";")[..|j + ";"| - 1] == j;
    PointTextsCounts(cs);
    JoinCounts(PointTexts(cs));
  }

  /** An empty list gives `NRCOORD=0&COORD=` and nothing is sliced off. */
  lemma EmptyCoordinates(webservice: string, themeName: string, username: string)
    ensures CoordText([]) == ""
    ensures Prefix(webservice, themeName, 0) == webservice + "?THEME=" + themeName + "&NRCOORD=0&COORD="
    ensures UserSuffix(username).Ok? ==>
              ServiceUrl(webservice, themeName, [], username)
              == Ok(Prefix(webservice, themeName, 0) + UserSuffix(username).value)
  {
    assert HalfText(0) == "0";
    var w := webservice + "?THEME=" + themeName;
    assert w + "&NRCOORD=" + "0" + "&COORD=" == w + "&NRCOORD=0&COORD=";
    assert Prefix(webservice, themeName, 0) + "" == Prefix(webservice, themeName, 0);
  }

  /** Every URL built starts with `<webservice>?THEME=<theme>&NRCOORD=<n/2>&COORD=`. */
  lemma UrlStartsWithPrefix(webservice: string, themeName: string, coords: seq<int>, username: string)
    requires ServiceUrl(webservice, themeName, coords, username).Ok?
    ensures var url := ServiceUrl(webservice, themeName, coords, username).value;
            var p := webservice + "?THEME=" + themeName + "&NRCOORD=" + HalfText(|coords|) + "&COORD=";
            |p| <= |url| && url[..|p|] == p
  {
  }

  /**
   * `&USER=<btoa(username)>` ends the URL exactly when the username is
   * non-empty and not "undefined"; otherwise the URL ends with the COORD value.
   * The only failure is `btoa` rejecting a non-Latin-1 username.
   */
  lemma UserComponent(webservice: string, themeName: string, coords: seq<int>, username: string)
    ensures var r := ServiceUrl(webservice, themeName, coords, username);
            var body := Prefix(webservice, themeName, |coords|) + CoordText(coords);
            && (r.Err? <==> SendsUser(username) && !IsLatin1(username))
            && (SendsUser(username) && IsLatin1(username) ==> r == Ok(body + ("&USER=" + Btoa(username).value)))
            && (!SendsUser(username) ==> r == Ok(body))
  {
    var body := Prefix(webservice, themeName, |coords|) + CoordText(coords);
    assert body + "" == body;
  }

  lemma LinePoints()
    ensures PointTexts([0, 0, 10, 0, 10, 10]) == ["0,0", "10,0", "10,10"]
  {
    var cs := [0, 0, 10, 0, 10, 10];
    assert NatToString(10) == "10";
    assert IntToString(0) == "0" && IntToString(10) == "10";
    assert PointText(0, 0) == "0,0" && PointText(10, 0) == "10,0" && PointText(10, 10) == "10,10";
    assert cs[..4] == [0, 0, 10, 0] && cs[..4][..2] == [0, 0];
    assert PointTexts([0, 0]) == ["0,0"];
    assert PointTexts(cs[..4]) == ["0,0", "10,0"];
  }

  lemma LineJoin()
    ensures Join(["0,0", "10,0", "10,10"], ';') == "0,0;10,0;10,10"
  {
    var ps := ["0,0", "10,0", "10,10"];
    assert ps[..2] == ["0,0", "10,0"] && ps[..2][..1] == ["0,0"];
    assert Join(ps[..2], ';') == "0,0;10,0";
  }

  lemma LinePrefix()
    ensures Prefix("ws", "T", 6) == "ws?THEME=T&NRCOORD=3&COORD="
  {
    assert HalfText(6) == "3";
  }

  /** The line `[0,0,10,0,10,10]` is sent as three points. */
  lemma LineExample()
    ensures ServiceUrl("ws", "T", [0, 0, 10, 0, 10, 10], "")
            == Ok("ws?THEME=T&NRCOORD=3&COORD=0,0;10,0;10,10")
  {
    var cs := [0, 0, 10, 0, 10, 10];
    assert CoordText(cs) == "0,0;10,0;10,10" by {
      CoordTextPairs(cs);
      LinePoints();
      LineJoin();
    }
    LinePrefix();
    assert UserSuffix("") == Ok("");
    assert "ws?THEME=T&NRCOORD=3&COORD=" + "0,0;10,0;10,10" + "" == "ws?THEME=T&NRCOORD=3&COORD=0,0;10,0;10,10";
  }
}
