/**
 * The path classifier of the products page: the folder that follows the
 * `dynamic-products` segment of an asset path decides the product's category and,
 * for the PLC product line, one of six subcategories.
 */
module PathClassifier {
  import opened Wrappers
  import opened Text

  /** The directory segment under which product images are stored. */
  const Marker: string := "dynamic-products"

  /** The six PLC subcategories, in the order the catalog lists them. */
  const PlcSubcategories: seq<string> := [
    "PLC iQF",
    "PLC iQR",
    "PLC MELSEC Q Series",
    "PLC MELSEC F Series",
    "PLC MXF Series",
    "PLC MXR Series"
  ]

  datatype Classification = Classification(category: string, subcategory: Option<string>)

  const Other: Classification := Classification("Other", None)

  /** `parts.findIndex(part => part === x)`, with `None` for -1. */
  function FirstIndex(parts: seq<string>, x: string): (r: Option<nat>)
    ensures r.None? <==> x !in parts
    ensures r.Some? ==> r.value < |parts| && parts[r.value] == x && x !in parts[..r.value]
    decreases |parts|
  {
    if |parts| == 0 then None
    else if parts[0] == x then Some(0)
    else match FirstIndex(parts[1..], x)
      case None => None
      case Some(i) =>
        assert parts[..i + 1] == [parts[0]] + parts[1..][..i];
        Some(i + 1)
  }

  /**
   * `folder.toLowerCase().trim()`: the lower-cased folder name without the white
   * space around it.
   */
  function Normalize(folder: string): (n: string)
    ensures forall i :: 0 <= i < |n| ==> !IsUpper(n[i])
    ensures exists a :: PaddedAt(Lower(folder), n, a)
    ensures n == [] || (!IsSpace(n[0]) && !IsSpace(n[|n| - 1]))
  {
    TrimmedLower(folder);
    Trim(Lower(folder))
  }

  lemma TrimmedLower(folder: string)
    ensures forall i :: 0 <= i < |Trim(Lower(folder))| ==> !IsUpper(Trim(Lower(folder))[i])
  {
    var l := Lower(folder);
    var n := Trim(l);
    var a :| PaddedAt(l, n, a);
    assert forall i :: 0 <= i < |n| ==> n[i] == l[a + i];
  }

  /**
   * The series token test of the k-th PLC rule on a normalised folder name; rule k
   * yields `PlcSubcategories[k]` when the name also contains "plc".
   */
  predicate SeriesToken(n: string, k: nat)
    requires k < |PlcSubcategories|
  {
    match k
    case 0 => Contains(n, "iqf")
    case 1 => Contains(n, "iqr")
    case 2 => Contains(n, "melsec q") || Contains(n, "q series")
    case 3 => Contains(n, "melsec f") || Contains(n, "f series")
    case 4 => Contains(n, "mxf")
    case _ => Contains(n, "mxr")
  }

  /** The categories the rule chain names. */
  const RuleCategories: set<string> := {
    "PLC", "HMI", "Robot", "Invertors", "AC Servo", "Software", "Integrated HMI",
    "Low Voltage Power Distribution"
  }

  /** The ordered rule chain of `getCategoryFromPath`, on the normalised name `n` of `folder`. */
  function Rules(n: string, folder: string): (c: Classification)
    ensures c.subcategory.Some? ==> c.category == "PLC" && c.subcategory.value in PlcSubcategories
    ensures c.subcategory.Some? ==> Contains(n, "plc")
    ensures c.category in RuleCategories || c == Classification(folder, None)
  {
    if Contains(n, "iqf") && Contains(n, "plc") then Classification("PLC", Some("PLC iQF"))
    else if Contains(n, "iqr") && Contains(n, "plc") then Classification("PLC", Some("PLC iQR"))
    else if (Contains(n, "melsec q") || Contains(n, "q series")) && Contains(n, "plc") then
      Classification("PLC", Some("PLC MELSEC Q Series"))
    else if (Contains(n, "melsec f") || Contains(n, "f series")) && Contains(n, "plc") then
      Classification("PLC", Some("PLC MELSEC F Series"))
    else if Contains(n, "mxf") && Contains(n, "plc") then Classification("PLC", Some("PLC MXF Series"))
    else if Contains(n, "mxr") && Contains(n, "plc") then Classification("PLC", Some("PLC MXR Series"))
    else if Contains(n, "hmi") then Classification("HMI", None)
    else if Contains(n, "robot") then Classification("Robot", None)
    else if Contains(n, "invertor") then Classification("Invertors", None)
    else if Contains(n, "servo") then Classification("AC Servo", None)
    else if Contains(n, "software") then Classification("Software", None)
    else if Contains(n, "integrated hmi") || Contains(n, "intergrated hmi") then
      Classification("Integrated HMI", None)
    else if Contains(n, "low voltage") || Contains(n, "power") then
      Classification("Low Voltage Power Distribution", None)
    else Classification(folder, None)
  }

  /**
   * The classification of the folder that follows the marker: one of the rule
   * categories, or the folder name itself; a subcategory exactly when the
   * normalised name holds "plc" and a series token.
   */
  function ClassifyFolder(folder: string): (c: Classification)
    ensures c.category in RuleCategories || c == Classification(folder, None)
    ensures c.subcategory.Some? <==>
      Contains(Normalize(folder), "plc") && exists k :: 0 <= k < |PlcSubcategories| && SeriesToken(Normalize(folder), k)
    ensures c.subcategory.Some? ==> c.category == "PLC" && c.subcategory.value in PlcSubcategories
  {
    SubcategoryIff(Normalize(folder), folder);
    Rules(Normalize(folder), folder)
  }

  /** `getCategoryFromPath`. */
  function ClassifyPath(path: string): (c: Classification)
    ensures c.subcategory.Some? ==> c.category == "PLC" && c.subcategory.value in PlcSubcategories
  {
    var parts := Split(path, '/');
    match FirstIndex(parts, Marker)
    case None => Other
    case Some(i) => if i == |parts| - 1 then Other else ClassifyFolder(parts[i + 1])
  }

  /** Without a `dynamic-products` segment the product is filed under "Other". */
  lemma MissingMarker(path: string)
    requires Marker !in Split(path, '/')
    ensures ClassifyPath(path) == Other
  {
  }

  /** A `dynamic-products` segment that is the last one also gives "Other". */
  lemma TrailingMarker(path: string)
    requires var parts := Split(path, '/');
      parts[|parts| - 1] == Marker && Marker !in parts[..|parts| - 1]
    ensures ClassifyPath(path) == Other
  {
  }

  /** Otherwise the folder right after the first marker segment decides. */
  lemma MarkerFolder(path: string, i: nat)
    requires var parts := Split(path, '/');
      i + 1 < |parts| && parts[i] == Marker && Marker !in parts[..i]
    ensures ClassifyPath(path) == ClassifyFolder(Split(path, '/')[i + 1])
  {
  }

  /**
   * PLC rules are tried in the order of `PlcSubcategories`: the first rule whose
   * series token is present decides, provided the name contains "plc".
   */
  lemma PlcFirstMatch(n: string, folder: string, k: nat)
    requires k < |PlcSubcategories|
    requires Contains(n, "plc") && SeriesToken(n, k)
    requires forall j :: 0 <= j < k ==> !SeriesToken(n, j)
    ensures Rules(n, folder) == Classification("PLC", Some(PlcSubcategories[k]))
  {
    if k > 0 { assert !SeriesToken(n, 0); }
    if k > 1 { assert !SeriesToken(n, 1); }
    if k > 2 { assert !SeriesToken(n, 2); }
    if k > 3 { assert !SeriesToken(n, 3); }
    if k > 4 { assert !SeriesToken(n, 4); }
  }

  /** A subcategory is set exactly when "plc" and some series token are present. */
  lemma SubcategoryIff(n: string, folder: string)
    ensures Rules(n, folder).subcategory.Some? <==>
      Contains(n, "plc") && exists k :: 0 <= k < |PlcSubcategories| && SeriesToken(n, k)
  {
    var c := Rules(n, folder);
    if c.subcategory.Some? {
      var k := if c.subcategory.value == PlcSubcategories[0] then 0
        else if c.subcategory.value == PlcSubcategories[1] then 1
        else if c.subcategory.value == PlcSubcategories[2] then 2
        else if c.subcategory.value == PlcSubcategories[3] then 3
        else if c.subcategory.value == PlcSubcategories[4] then 4
        else 5;
      assert SeriesToken(n, k);
    }
    if Contains(n, "plc") && exists k :: 0 <= k < |PlcSubcategories| && SeriesToken(n, k) {
      var k :| 0 <= k < |PlcSubcategories| && SeriesToken(n, k);
      if k == 0 {} else if k == 1 {} else if k == 2 {} else if k == 3 {} else if k == 4 {} else {}
    }
  }

  /**
   * The "integrated hmi" rule comes after the "hmi" rule, so such a folder is
   * filed under "HMI" (unless a PLC rule fires first).
   */
  lemma IntegratedHmiIsHmi(n: string, folder: string)
    requires Contains(n, "integrated hmi") || Contains(n, "intergrated hmi")
    requires Rules(n, folder).subcategory.None?
    ensures Rules(n, folder) == Classification("HMI", None)
  {
    if Contains(n, "integrated hmi") {
      assert ContainsAt("integrated hmi", "hmi", 11);
      ContainsAtImpliesContains("integrated hmi", "hmi", 11);
      ContainsTransitive(n, "integrated hmi", "hmi");
    } else {
      assert ContainsAt("intergrated hmi", "hmi", 12);
      ContainsAtImpliesContains("intergrated hmi", "hmi", 12);
      ContainsTransitive(n, "intergrated hmi", "hmi");
    }
  }

  /**
   * An unmatched folder is its own category, untrimmed and in its original case:
   * a name that fires no PLC rule (it may still hold "plc") and contains none of
   * the other tokens.
   */
  lemma Fallback(n: string, folder: string)
    requires !(Contains(n, "plc") && exists k :: 0 <= k < |PlcSubcategories| && SeriesToken(n, k))
    requires && !Contains(n, "hmi") && !Contains(n, "robot")
             && !Contains(n, "invertor") && !Contains(n, "servo") && !Contains(n, "software")
             && !Contains(n, "low voltage") && !Contains(n, "power")
    ensures Rules(n, folder) == Classification(folder, None)
  {
    SubcategoryIff(n, folder);
    if Contains(n, "integrated hmi") || Contains(n, "intergrated hmi") {
      IntegratedHmiIsHmi(n, folder);
    }
  }

  /** The normalised name of a folder literally named "Integrated HMI" contains "hmi". */
  lemma IntegratedHmiFolder(folder: string)
    requires folder == "Integrated HMI"
    ensures Contains(Normalize(folder), "hmi")
  {
    var l := Lower(folder);
    assert |folder| == 14 && folder[0] == 'I' && folder[11] == 'H' && folder[12] == 'M' && folder[13] == 'I';
    assert l[0] == 'i' && l[11] == 'h' && l[12] == 'm' && l[13] == 'i';
    TrimUnchanged(l);
    assert l[11..14] == "hmi";
    ContainsAtImpliesContains(l, "hmi", 11);
  }

  /** A name containing "hmi" is filed under "HMI" unless a PLC rule fires first. */
  lemma HmiRule(n: string, folder: string)
    requires Contains(n, "hmi")
    ensures Rules(n, folder).category == "PLC" || Rules(n, folder) == Classification("HMI", None)
  {
  }

  /** The rule chain gives "Integrated HMI" only by its own rule or from a folder of that name. */
  lemma IntegratedHmiSources(n: string, folder: string)
    requires Rules(n, folder).category == "Integrated HMI"
    ensures Contains(n, "integrated hmi") || Contains(n, "intergrated hmi") || folder == "Integrated HMI"
  {
  }

  /** Consequently no folder is ever classified "Integrated HMI"... */
  lemma FolderNeverIntegratedHmi(folder: string)
    ensures ClassifyFolder(folder).category != "Integrated HMI"
  {
    var n := Normalize(folder);
    if Rules(n, folder).category == "Integrated HMI" {
      IntegratedHmiSources(n, folder);
      if folder == "Integrated HMI" {
        IntegratedHmiFolder(folder);
        HmiRule(n, folder);
      } else {
        IntegratedHmiIsHmi(n, folder);
      }
    }
  }

  /** ...and no path either. */
  lemma NeverIntegratedHmi(path: string)
    ensures ClassifyPath(path).category != "Integrated HMI"
  {
    var parts := Split(path, '/');
    match FirstIndex(parts, Marker)
    case None =>
    case Some(i) =>
      if i < |parts| - 1 {
        FolderNeverIntegratedHmi(parts[i + 1]);
      }
  }
}
