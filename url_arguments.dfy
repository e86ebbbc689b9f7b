/** The two string helpers of the test utility: the URL name of a multi
    element, and the query string built from the optional identifiers. */
module UrlArguments {
  import opened Errors

  /** `by_multi_element_get_url_name`: the route name under which a
      multi-geometry element is served; any other geometry name raises. */
  function ByMultiElementGetUrlName(multiElement: string): (r: Outcome<string>)
    ensures r.Returned? <==> multiElement in {"MultiPoint", "MultiLineString", "MultiPolygon"}
    ensures multiElement == "MultiPoint" ==> r == Returned("node")
    ensures multiElement == "MultiLineString" ==> r == Returned("way")
    ensures multiElement == "MultiPolygon" ==> r == Returned("area")
    ensures r.Raised? ==> r.error == OtherError("Invalid multi element: " + multiElement)
  {
    if multiElement == "MultiPoint" then Returned("node")
    else if multiElement == "MultiLineString" then Returned("way")
    else if multiElement == "MultiPolygon" then Returned("area")
    else Raised(OtherError("Invalid multi element: " + multiElement))
  }

  /** The reverse reading: the multi element a route name serves. */
  function MultiElementOfUrlName(urlName: string): Option<string> {
    if urlName == "node" then Some("MultiPoint")
    else if urlName == "way" then Some("MultiLineString")
    else if urlName == "area" then Some("MultiPolygon")
    else None
  }

  /** The mapping is one-to-one: each route name comes from exactly one
      multi element, in both directions. */
  lemma UrlNameRoundTrip(multiElement: string, urlName: string)
    ensures ByMultiElementGetUrlName(multiElement) == Returned(urlName) <==>
      MultiElementOfUrlName(urlName) == Some(multiElement)
  {
  }

  /** `sep.join(parts)`: the parts in order with one separator between
      neighbours. It starts with the first part, and when no part holds the
      separator it holds exactly one separator fewer than there are parts. */
  function Join(sep: char, parts: seq<string>): string {
    if |parts| == 0 then ""
    else if |parts| == 1 then parts[0]
    else parts[0] + [sep] + Join(sep, parts[1..])
  }

  /** The joined text starts with the first part, and when no part holds
      the separator it holds exactly one separator between each pair of
      neighbours and no other. */
  lemma {:induction false} JoinSeparatorCount(sep: char, parts: seq<string>)
    ensures |parts| >= 1 ==> parts[0] <= Join(sep, parts)
    ensures (forall i :: 0 <= i < |parts| ==> sep !in parts[i]) ==>
      multiset(Join(sep, parts))[sep] == if |parts| == 0 then 0 else |parts| - 1
    decreases |parts|
  {
    if |parts| >= 2 && forall i :: 0 <= i < |parts| ==> sep !in parts[i] {
      JoinSeparatorCount(sep, parts[1..]);
      assert sep !in parts[0];
      assert multiset(parts[0] + [sep] + Join(sep, parts[1..]))
        == multiset(parts[0]) + multiset{sep} + multiset(Join(sep, parts[1..]));
    } else if |parts| == 1 && sep !in parts[0] {
      assert Join(sep, parts) == parts[0];
    }
  }

  /** `s.split(sep)`: the pieces between the separators, in order. */
  function Split(s: string, sep: char): (parts: seq<string>)
    ensures |parts| >= 1
    decreases |s|
  {
    if s == [] then [""]
    else
      var rest := Split(s[1..], sep);
      if s[0] == sep then [""] + rest
      else [[s[0]] + rest[0]] + rest[1..]
  }

  lemma {:induction false} SplitWithoutSeparator(a: string, sep: char)
    requires sep !in a
    ensures Split(a, sep) == [a]
    decreases |a|
  {
    if a != [] {
      SplitWithoutSeparator(a[1..], sep);
      assert [a[0]] + a[1..] == a;
    }
  }

  lemma {:induction false} SplitAfterFirstSeparator(a: string, sep: char, b: string)
    requires sep !in a
    ensures Split(a + [sep] + b, sep) == [a] + Split(b, sep)
    decreases |a|
  {
    var s := a + [sep] + b;
    if a == [] {
      assert s[1..] == b;
    } else {
      assert s[1..] == a[1..] + [sep] + b;
      SplitAfterFirstSeparator(a[1..], sep, b);
      assert [a[0]] + a[1..] == a;
    }
  }

  /** Splitting undoes joining when no part holds the separator. */
  lemma {:induction false} SplitJoin(sep: char, parts: seq<string>)
    requires |parts| >= 1
    requires forall i :: 0 <= i < |parts| ==> sep !in parts[i]
    ensures Split(Join(sep, parts), sep) == parts
    decreases |parts|
  {
    if |parts| == 1 {
      SplitWithoutSeparator(parts[0], sep);
    } else {
      SplitJoin(sep, parts[1..]);
      SplitAfterFirstSeparator(parts[0], sep, Join(sep, parts[1..]));
    }
  }

  /** The keys `get_url_arguments` reads, in the order it reads them. */
  const ArgumentKeys: seq<string> := ["element_id", "project_id", "changeset_id"]

  /** `key=value` when the key is given with a non-empty value, nothing
      otherwise. */
  function Piece(kwargs: map<string, string>, key: string): seq<string> {
    if key in kwargs && kwargs[key] != "" then [key + "=" + kwargs[key]] else []
  }

  /** The pieces of the query, in the fixed key order. */
  function Pieces(kwargs: map<string, string>): seq<string> {
    Piece(kwargs, "element_id") + Piece(kwargs, "project_id") + Piece(kwargs, "changeset_id")
  }

  /** The query string `get_url_arguments` builds. */
  function UrlArguments(kwargs: map<string, string>): (r: string)
    ensures r == "" <==> Pieces(kwargs) == []
    ensures r != "" ==> r[0] == '?' && |r| >= 2
  {
    var pieces := Pieces(kwargs);
    if pieces == [] then "" else "?" + Join('&', pieces)
  }

  /** `get_url_arguments(**kwargs)`: the keyword arguments are a map from
      name to the text of the value. The list of pieces grows key by key and
      is then replaced by the joined string. */
  method GetUrlArguments(kwargs: map<string, string>) returns (arguments: string)
    ensures arguments == UrlArguments(kwargs)
    ensures arguments == "" <==> forall k :: k in ArgumentKeys ==> k !in kwargs || kwargs[k] == ""
  {
    var pieces: seq<string> := [];
    if "element_id" in kwargs && kwargs["element_id"] != "" {
      pieces := pieces + ["element_id=" + kwargs["element_id"]];
    }
    if "project_id" in kwargs && kwargs["project_id"] != "" {
      pieces := pieces + ["project_id=" + kwargs["project_id"]];
    }
    if "changeset_id" in kwargs && kwargs["changeset_id"] != "" {
      pieces := pieces + ["changeset_id=" + kwargs["changeset_id"]];
    }
    assert forall v: string :: "element_id=" + v == "element_id" + "=" + v;
    assert forall v: string :: "project_id=" + v == "project_id" + "=" + v;
    assert forall v: string :: "changeset_id=" + v == "changeset_id" + "=" + v;
    assert pieces == Pieces(kwargs);
    if pieces != [] {
      arguments := "?" + Join('&', pieces);
    } else {
      arguments := "";
    }
  }

  /** The query is empty exactly when none of the three keys is given with a
      non-empty value. */
  lemma UrlArgumentsEmptyIff(kwargs: map<string, string>)
    ensures UrlArguments(kwargs) == "" <==> forall k :: k in ArgumentKeys ==> k !in kwargs || kwargs[k] == ""
  {

  }

  /** A non-empty query is `?` followed by the pieces joined with `&`: when
      no value holds a `&`, splitting the query after the `?` gives back
      exactly the pieces, each a non-empty `key=value` (so there is no
      leading, trailing or doubled `&`). */
  lemma UrlArgumentsParse(kwargs: map<string, string>)
    requires forall k :: k in ArgumentKeys && k in kwargs ==> '&' !in kwargs[k]
    requires UrlArguments(kwargs) != ""
    ensures var q := UrlArguments(kwargs);
      && q[0] == '?'
      && Split(q[1..], '&') == Pieces(kwargs)
      && forall i :: 0 <= i < |Pieces(kwargs)| ==> Pieces(kwargs)[i] != ""
  {
    var pieces := Pieces(kwargs);
    PiecesWithoutAmpersand(kwargs);
    assert UrlArguments(kwargs)[1..] == Join('&', pieces);
    SplitJoin('&', pieces);
  }

  /** Each piece is a non-empty `key=value`, free of `&` when the values are. */
  lemma PiecesWithoutAmpersand(kwargs: map<string, string>)
    requires forall k :: k in ArgumentKeys && k in kwargs ==> '&' !in kwargs[k]
    ensures forall i :: 0 <= i < |Pieces(kwargs)| ==> '&' !in Pieces(kwargs)[i] && Pieces(kwargs)[i] != ""
  {
    var pieces := Pieces(kwargs);
    forall i | 0 <= i < |pieces| ensures '&' !in pieces[i] && pieces[i] != "" {
      var k :| k in ArgumentKeys && k in kwargs && kwargs[k] != "" && pieces[i] == k + "=" + kwargs[k];
      assert '&' !in k;
    }
  }

  /** Only the three keys matter: keyword arguments that agree on them give
      the same query, whatever else is passed and in whatever order. */
  lemma UrlArgumentsIgnoresOtherKeys(a: map<string, string>, b: map<string, string>)
    requires forall k :: k in ArgumentKeys ==> (k in a <==> k in b) && (k in a ==> a[k] == b[k])
    ensures UrlArguments(a) == UrlArguments(b)
  {

  }

  /** The fixed examples: no arguments give the empty query, and pieces keep
      the fixed order whatever is given. */
  lemma UrlArgumentsExamples()
    ensures UrlArguments(map[]) == ""
    ensures UrlArguments(map["element_id" := ""]) == ""
    ensures UrlArguments(map["changeset_id" := "5", "element_id" := "7"]) == "?element_id=7&changeset_id=5"
  {
    var m := map["changeset_id" := "5", "element_id" := "7"];
    assert m["element_id"] == "7" && m["changeset_id"] == "5" && "project_id" !in m;
    assert "element_id" + "=" + "7" == "element_id=7";
    assert Piece(m, "element_id") == ["element_id=7"];
    assert Piece(m, "project_id") == [];
    assert "changeset_id" + "=" + "5" == "changeset_id=5";
    assert Piece(m, "changeset_id") == ["changeset_id=5"];
    assert Pieces(m) == ["element_id=7", "changeset_id=5"];
  }
}
