/** The structural checks on an uploaded ZIP archive. The archive is given by
    its list of entry names (`zip_reference.namelist()`), in archive order. */
module Shapefile {
  import opened Errors
  import opened Text

  const NotFoundMessage := "3) Invalid ZIP! Not found a ShapeFile (.shp) inside de ZIP."

  /** The tokens the companion check looks for, in the order it looks. */
  const RequiredTokens: seq<string> := ["shp", "prj", "dbf", "shx"]

  /** A name ends with the geometry-file extension. */
  predicate IsShapefileName(name: string) {
    EndsWith(name, ".shp")
  }

  /** Some entry of the listing is a shapefile. */
  ghost predicate HasShapefile(names: seq<string>) {
    exists i :: 0 <= i < |names| && IsShapefileName(names[i])
  }

  /** `i` is the position of the first shapefile in the listing. */
  ghost predicate IsFirstShapefile(names: seq<string>, i: int) {
    && 0 <= i < |names|
    && IsShapefileName(names[i])
    && forall j :: 0 <= j < i ==> !IsShapefileName(names[j])
  }

  /** `exist_shapefile_inside_zip`: scans the listing and stops at the first
      shapefile. */
  method ExistShapefileInsideZip(names: seq<string>) returns (found: bool)
    ensures found <==> HasShapefile(names)
  {
    for i := 0 to |names|
      invariant forall j :: 0 <= j < i ==> !IsShapefileName(names[j])
    {
      if IsShapefileName(names[i]) {
        return true;
      }
    }
    return false;
  }

  /** `get_shapefile_name_inside_zip`: the first shapefile of the listing, or a
      404 failure when there is none. */
  method GetShapefileNameInsideZip(names: seq<string>) returns (r: Outcome<string>)
    ensures r.Returned? <==> HasShapefile(names)
    ensures r.Returned? ==> exists i :: IsFirstShapefile(names, i) && r.value == names[i]
    ensures r.Raised? ==> r.error == HttpError(404, NotFoundMessage)
  {
    for i := 0 to |names|
      invariant forall j :: 0 <= j < i ==> !IsShapefileName(names[j])
    {
      if IsShapefileName(names[i]) {
        assert IsFirstShapefile(names, i);
        return Returned(names[i]);
      }
    }
    return Raised(HttpError(404, NotFoundMessage));
  }

  /** `any(token in name for name in names)`: the token occurs as a substring
      of some name (not necessarily as its extension). */
  predicate AnyNameContains(names: seq<string>, token: string) {
    |names| > 0 && (Contains(names[0], token) || AnyNameContains(names[1..], token))
  }

  /** The scan over the listing holds exactly when some name contains the
      token. */
  lemma {:induction false} AnyNameContainsIff(names: seq<string>, token: string)
    ensures AnyNameContains(names, token) <==> exists i :: 0 <= i < |names| && Contains(names[i], token)
    decreases |names|
  {
    if |names| > 0 {
      AnyNameContainsIff(names[1..], token);
      assert forall i :: 1 <= i < |names| ==> names[1..][i - 1] == names[i];
    }
  }

  /** The token alone when no name contains it, nothing otherwise. */
  function MissingOne(names: seq<string>, token: string): seq<string> {
    if AnyNameContains(names, token) then [] else [token]
  }

  /** The tokens of `tokens` that no name contains, in the order of `tokens`. */
  function Missing(names: seq<string>, tokens: seq<string>): seq<string>
  {
    if tokens == [] then []
    else
      var n := |tokens| - 1;
      Missing(names, tokens[..n]) + MissingOne(names, tokens[n])
  }

  /** The missing list holds exactly the tokens no name contains. */
  lemma {:induction false} MissingMembers(names: seq<string>, tokens: seq<string>)
    ensures forall t :: t in Missing(names, tokens) <==> t in tokens && !AnyNameContains(names, t)
    decreases |tokens|
  {
    if tokens != [] {
      var n := |tokens| - 1;
      assert tokens == tokens[..n] + [tokens[n]];
      MissingMembers(names, tokens[..n]);
    }
  }

  /** The required tokens the listing lacks, in checking order. */
  function MissingTokens(names: seq<string>): seq<string> {
    Missing(names, RequiredTokens)
  }

  /** Checking one more required token appends it to the missing list when
      no name contains it. */
  lemma MissingStep(names: seq<string>, n: nat)
    requires n < |RequiredTokens|
    ensures Missing(names, RequiredTokens[..n + 1])
      == Missing(names, RequiredTokens[..n]) + MissingOne(names, RequiredTokens[n])
  {
    assert RequiredTokens[..n + 1][..n] == RequiredTokens[..n];
  }

  /** The missing list of the four required tokens, written out. */
  lemma MissingTokensUnfold(names: seq<string>)
    ensures MissingTokens(names)
      == MissingOne(names, "shp") + MissingOne(names, "prj") + MissingOne(names, "dbf") + MissingOne(names, "shx")
  {
    assert RequiredTokens[..0] == [];
    MissingStep(names, 0);
    MissingStep(names, 1);
    MissingStep(names, 2);
    MissingStep(names, 3);
    assert RequiredTokens[..4] == RequiredTokens;
  }

  /** The extension the companion check names for a missing list: the last
      missing token, or nothing when none is missing. */
  function LastMissingExtension(missing: seq<string>): string {
    if missing == [] then "" else "." + missing[|missing| - 1]
  }

  /** The message of the companion check, with the extension filled in. */
  function Report(extension: string): string {
    "Invalid ZIP! Not found a ShapeFile (" + extension + ") inside de ZIP."
  }

  /** The status and extension reported for the missing list `missing`. */
  ghost predicate Reports(missing: seq<string>, status: int, extension: string) {
    && status == (if missing == [] then 200 else 404)
    && extension == LastMissingExtension(missing)
  }

  /** One step of the companion check keeps the status and the extension
      in line with the missing list of the tokens checked so far. */
  lemma ReportStep(names: seq<string>, n: nat, status: int, extension: string, status': int, extension': string)
    requires n < |RequiredTokens|
    requires Reports(Missing(names, RequiredTokens[..n]), status, extension)
    requires AnyNameContains(names, RequiredTokens[n]) ==> status' == status && extension' == extension
    requires !AnyNameContains(names, RequiredTokens[n]) ==> status' == 404 && extension' == "." + RequiredTokens[n]
    ensures Reports(Missing(names, RequiredTokens[..n + 1]), status', extension')
  {
    MissingStep(names, n);
  }

  /** `exist_prj_shx_dbf_and_prj_files_inside_shapefile_name_inside_zip`:
      checks the four tokens in turn, each missing one overwriting the status
      and the extension. The result reports the LAST missing token. */
  method ExistCompanionFilesInsideZip(names: seq<string>) returns (status: int, message: string)
    ensures status == (if MissingTokens(names) == [] then 200 else 404)
    ensures message == Report(LastMissingExtension(MissingTokens(names)))
  {
    assert "." + "shp" == ".shp" && "." + "prj" == ".prj" && "." + "dbf" == ".dbf" && "." + "shx" == ".shx";
    status := 200;
    var extension := "";
    assert RequiredTokens[..0] == [];
    ghost var s0, e0 := status, extension;
    if !AnyNameContains(names, "shp") {
      status := 404;
      extension := ".shp";
    }
    ReportStep(names, 0, s0, e0, status, extension);
    s0, e0 := status, extension;
    if !AnyNameContains(names, "prj") {
      status := 404;
      extension := ".prj";
    }
    ReportStep(names, 1, s0, e0, status, extension);
    s0, e0 := status, extension;
    if !AnyNameContains(names, "dbf") {
      status := 404;
      extension := ".dbf";
    }
    ReportStep(names, 2, s0, e0, status, extension);
    s0, e0 := status, extension;
    if !AnyNameContains(names, "shx") {
      status := 404;
      extension := ".shx";
    }
    ReportStep(names, 3, s0, e0, status, extension);
    assert RequiredTokens[..4] == RequiredTokens;
    message := Report(extension);
  }

  /** The companion check succeeds exactly when every required token occurs
      in some name. */
  lemma CompanionCheckPassesIff(names: seq<string>)
    ensures MissingTokens(names) == [] <==> forall t :: t in RequiredTokens ==> AnyNameContains(names, t)
  {
    MissingMembers(names, RequiredTokens);
    if MissingTokens(names) != [] {
      assert MissingTokens(names)[0] in MissingTokens(names);
    }
  }

  /** On failure the reported token is a missing one, and every token checked
      after it is present: the last missing token wins. */
  lemma CompanionReportsLastMissing(names: seq<string>)
    requires MissingTokens(names) != []
    ensures var last := MissingTokens(names)[|MissingTokens(names)| - 1];
      exists k :: 0 <= k < 4 && RequiredTokens[k] == last
        && !AnyNameContains(names, last)
        && forall j :: k < j < 4 ==> AnyNameContains(names, RequiredTokens[j])
  {
    MissingTokensUnfold(names);
    var m := MissingTokens(names);
    if !AnyNameContains(names, "shx") {
      assert m[|m| - 1] == RequiredTokens[3];
    } else if !AnyNameContains(names, "dbf") {
      assert m[|m| - 1] == RequiredTokens[2];
    } else if !AnyNameContains(names, "prj") {
      assert m[|m| - 1] == RequiredTokens[1];
    } else {
      assert m[|m| - 1] == RequiredTokens[0];
    }
  }

  /** The fixed example's listing `["a.shp", "a.dbf"]` holds `shp` and `dbf`. */
  lemma ExampleListingHoldsShpDbf()
    ensures MissingOne(["a.shp", "a.dbf"], "shp") == []
    ensures MissingOne(["a.shp", "a.dbf"], "dbf") == []
  {
    var names := ["a.shp", "a.dbf"];
    assert Contains(names[0], "shp") by { assert OccursAt(names[0], "shp", 2); }
    assert Contains(names[1], "dbf") by { assert OccursAt(names[1], "dbf", 2); }
    assert names[1..][0] == names[1];
  }

  /** The fixed example's listing `["a.shp", "a.dbf"]` lacks `prj` and `shx`. */
  lemma ExampleListingLacksPrjShx()
    ensures MissingOne(["a.shp", "a.dbf"], "prj") == ["prj"]
    ensures MissingOne(["a.shp", "a.dbf"], "shx") == ["shx"]
  {
    var names := ["a.shp", "a.dbf"];
    AbsentCharNotContained(names[0], "prj", 'r');
    AbsentCharNotContained(names[1], "prj", 'r');
    AbsentCharNotContained(names[0], "shx", 'x');
    AbsentCharNotContained(names[1], "shx", 'x');
    assert names[1..][1..] == [];
  }

  /** The fixed example: `["a.shp", "a.dbf"]` lacks `prj` and `shx`, and the
      check names `.shx`, not `.prj`. */
  lemma CompanionExampleReportsShx()
    ensures MissingTokens(["a.shp", "a.dbf"]) == ["prj", "shx"]
  {
    ExampleListingHoldsShpDbf();
    ExampleListingLacksPrjShx();
    MissingTokensUnfold(["a.shp", "a.dbf"]);
  }

  /** On the same listing the companion check answers 404 naming `.shx`. */
  lemma CompanionExampleNamesShx()
    ensures LastMissingExtension(MissingTokens(["a.shp", "a.dbf"])) == ".shx"
  {
    CompanionExampleReportsShx();
  }

  /** The complete bundle `["a.shp", "a.shx", "a.dbf", "a.prj"]` lacks
      nothing: status 200 and an empty extension. */
  lemma CompanionExampleComplete()
    ensures MissingTokens(["a.shp", "a.shx", "a.dbf", "a.prj"]) == []
    ensures LastMissingExtension(MissingTokens(["a.shp", "a.shx", "a.dbf", "a.prj"])) == ""
  {
    var names := ["a.shp", "a.shx", "a.dbf", "a.prj"];
    assert AnyNameContains(names, "shp") by {
      assert OccursAt(names[0], "shp", 2);
    }
    assert AnyNameContains(names, "shx") by {
      assert OccursAt(names[1], "shx", 2);
      assert names[1..][0] == names[1];
    }
    assert AnyNameContains(names, "dbf") by {
      assert OccursAt(names[2], "dbf", 2);
      assert names[1..][1..][0] == names[2];
    }
    assert AnyNameContains(names, "prj") by {
      assert OccursAt(names[3], "prj", 2);
      assert names[1..][1..][1..][0] == names[3];
    }
    MissingTokensUnfold(names);
  }

  /** A name lacking one character of the token cannot contain the token. */
  lemma AbsentCharNotContained(s: string, t: string, c: char)
    requires c in t && c !in s
    ensures !Contains(s, t)
  {

  }

  /** The listing `["a.shp.txt", "a.prj", "a.dbf", "a.shx"]` holds every
      required token as a substring. */
  lemma LooseListingPassesCompanionCheck()
    ensures MissingTokens(["a.shp.txt", "a.prj", "a.dbf", "a.shx"]) == []
  {
    var names := ["a.shp.txt", "a.prj", "a.dbf", "a.shx"];
    assert AnyNameContains(names, "shp") by {
      assert OccursAt(names[0], "shp", 2);
    }
    assert AnyNameContains(names, "prj") by {
      assert OccursAt(names[1], "prj", 2);
      assert names[1..][0] == names[1];
    }
    assert AnyNameContains(names, "dbf") by {
      assert OccursAt(names[2], "dbf", 2);
      assert names[1..][1..][0] == names[2];
    }
    assert AnyNameContains(names, "shx") by {
      assert OccursAt(names[3], "shx", 2);
      assert names[1..][1..][1..][0] == names[3];
    }
    MissingTokensUnfold(names);
  }

  /** No name of that listing ends with `.shp`. */
  lemma LooseListingHasNoShapefile()
    ensures !HasShapefile(["a.shp.txt", "a.prj", "a.dbf", "a.shx"])
  {
    var names := ["a.shp.txt", "a.prj", "a.dbf", "a.shx"];
    forall i | 0 <= i < |names| ensures !IsShapefileName(names[i]) {
      var n := names[i];
      assert n[|n| - 4..][3] == n[|n| - 1] != 'p';
    }
  }

  /** The companion check tests substrings, not extensions: a listing can
      pass it while holding no shapefile that `get_shapefile_name_inside_zip`
      would find. */
  lemma CompanionCheckIsLooserThanSuffix()
    ensures var names := ["a.shp.txt", "a.prj", "a.dbf", "a.shx"];
      MissingTokens(names) == [] && !HasShapefile(names)
  {
    LooseListingPassesCompanionCheck();
    LooseListingHasNoShapefile();
  }
}
