/**
 * The link behind each product card: a page of the vendor's site chosen by the
 * product's subcategory, category, and keywords in its title or file name.
 */
module ProductUrl {
  import opened Wrappers
  import opened Text
  import opened Catalog

  /** The site every product link points into, and the link used when nothing matches. */
  const Vendor: string := "https://www.mitsubishielectric.com/fa/"

  /**
   * One keyword test of the link chain: it fires when the lower-cased title contains
   * one of `titleWords` or the lower-cased file name contains one of `filenameWords`.
   */
  datatype KeywordRule = KeywordRule(titleWords: seq<string>, filenameWords: seq<string>, url: string)

  predicate ContainsAny(s: string, words: seq<string>) {
    exists i :: 0 <= i < |words| && Contains(s, words[i])
  }

  predicate Fires(rule: KeywordRule, title: string, filename: string) {
    ContainsAny(title, rule.titleWords) || ContainsAny(filename, rule.filenameWords)
  }

  /** Every link of a rule list and its default lies under the vendor's site. */
  predicate UnderVendor(rules: seq<KeywordRule>, default: string) {
    && StartsWith(default, Vendor) && |default| > |Vendor|
    && forall i :: 0 <= i < |rules| ==> StartsWith(rules[i].url, Vendor) && |rules[i].url| > |Vendor|
  }

  /** The ordered keyword tests: the first rule that fires decides, else the default. */
  function FirstFiring(rules: seq<KeywordRule>, title: string, filename: string, default: string): (r: string)
    ensures (exists i :: 0 <= i < |rules| && Fires(rules[i], title, filename)
               && (forall j :: 0 <= j < i ==> !Fires(rules[j], title, filename)) && r == rules[i].url)
            || ((forall i :: 0 <= i < |rules| ==> !Fires(rules[i], title, filename)) && r == default)
    ensures UnderVendor(rules, default) ==> StartsWith(r, Vendor) && |r| > |Vendor|
    decreases |rules|
  {
    if |rules| == 0 then default
    else if Fires(rules[0], title, filename) then rules[0].url
    else
      var r := FirstFiring(rules[1..], title, filename, default);
      assert forall i :: 1 <= i < |rules| ==> rules[i] == rules[1..][i - 1];
      assert UnderVendor(rules, default) ==> UnderVendor(rules[1..], default);
      r
  }

  const IqrDefault: string := Vendor + "products/cnt/plcr/pmerit/cpu/cpu.html"

  /** The PLC iQ-R product pages, in the order they are tried. */
  const IqrRules: seq<KeywordRule> := [
    KeywordRule(["general control cpu"], ["general control cpu"], Vendor + "products/cnt/plcr/pmerit/cpu/cpu.html"),
    KeywordRule(["analog modules"], ["analog modules"], Vendor + "products/cnt/plcr/pmerit/analog/"),
    KeywordRule(["io modules", "i/o modules"], ["io modules"], Vendor + "products/cnt/plcr/pmerit/io/"),
    KeywordRule(["motion control cpu"], ["motion control cpu"], Vendor + "products/cnt/plcr/pmerit/cpu/motion.html"),
    KeywordRule(["motion modules"], ["motion modules"], Vendor + "products/cnt/plcr/pmerit/motion/"),
    KeywordRule(["process control cpu", "position control cpu"], ["process control cpu"],
                Vendor + "products/cnt/plcr/pmerit/cpu/process.html"),
    KeywordRule(["safety control cpu"], ["safety control cpu"], Vendor + "products/cnt/plcr/pmerit/cpu/safety.html"),
    KeywordRule(["network modules"], ["network modules"], Vendor + "products/cnt/plcr/pmerit/network/")
  ]

  const Got2000: string := Vendor + "products/hmi/got/items/got2000/index.html"

  /** The HMI (GOT) product pages, in the order they are tried. */
  const HmiRules: seq<KeywordRule> := [
    KeywordRule(["got2000", "got 2000"], ["got 2000"], Got2000),
    KeywordRule(["got3000", "got 3000"], ["got3000"], Vendor + "products/hmi/got/items/got3000/index.html"),
    KeywordRule(["got simple", "simple"], ["simple"], Vendor + "products/hmi/got/items/got_simple/index.html"),
    KeywordRule(["softgot", "soft got"], ["softgot"], Vendor + "products/hmi/got/items/sgt/index.html")
  ]

  /** The subcategories whose products link to a series page. */
  const SeriesPages: map<string, string> := map[
    "PLC iQF" := Vendor + "products/cnt/plcf/pmerit/concept/index.html",
    "PLC MELSEC Q Series" := Vendor + "products/cnt/plcq/pmerit/concept/index.html",
    "PLC MELSEC F Series" := Vendor + "products/cnt/plc_fx/pmerit/contents/index.html",
    "PLC MXR Series" := Vendor + "products/cnt/mxc/items/mxcr/index.html"
  ]

  /** The categories whose products link to a fixed category page. */
  const CategoryPages: map<string, string> := map[
    "AC Servo" := Vendor + "products/drv/servo/",
    "Invertors" := Vendor + "products/drv/inv/pmerit/index.html",
    "Low Voltage Power Distribution" := Vendor + "in_en/products/lvd/index.html",
    "Robot" := Vendor + "products/rbt/robot/",
    "Integrated HMI" := Got2000,
    "Software" := Vendor + "products/software/visualisation/genesis64/index.html"
  ]

  lemma VendorTables()
    ensures UnderVendor(IqrRules, IqrDefault)
    ensures UnderVendor(HmiRules, Got2000)
    ensures forall k :: k in SeriesPages ==> StartsWith(SeriesPages[k], Vendor) && |SeriesPages[k]| > |Vendor|
    ensures forall k :: k in CategoryPages ==> StartsWith(CategoryPages[k], Vendor) && |CategoryPages[k]| > |Vendor|
  {
  }

  /** `getProductUrl`: every link lies under the vendor's site. */
  function ProductLink(p: Product): (r: string)
    ensures StartsWith(r, Vendor)
  {
    VendorTables();
    var title := Lower(p.title);
    var filename := Lower(p.filename);
    if p.subcategory == Some("PLC iQF") then SeriesPages["PLC iQF"]
    else if p.subcategory == Some("PLC iQR") then FirstFiring(IqrRules, title, filename, IqrDefault)
    else if p.subcategory == Some("PLC MELSEC Q Series") then SeriesPages["PLC MELSEC Q Series"]
    else if p.subcategory == Some("PLC MELSEC F Series") then SeriesPages["PLC MELSEC F Series"]
    else if p.subcategory == Some("PLC MXR Series") then SeriesPages["PLC MXR Series"]
    else if p.category == "AC Servo" then CategoryPages["AC Servo"]
    else if p.category == "HMI" then FirstFiring(HmiRules, title, filename, Got2000)
    else if p.category == "Invertors" then CategoryPages["Invertors"]
    else if p.category == "Low Voltage Power Distribution" then CategoryPages["Low Voltage Power Distribution"]
    else if p.category == "Robot" then CategoryPages["Robot"]
    else if p.category == "Integrated HMI" then CategoryPages["Integrated HMI"]
    else if p.category == "Software" then CategoryPages["Software"]
    else Vendor
  }

  /** The products that have a page of their own: by series, by iQ-R or HMI keywords, or by category. */
  predicate HasOwnPage(p: Product) {
    || (p.subcategory.Some? && (p.subcategory.value in SeriesPages || p.subcategory.value == "PLC iQR"))
    || p.category in CategoryPages
    || p.category == "HMI"
  }

  /** A product falls back to the site's front page exactly when it has no page of its own. */
  lemma FallbackIff(p: Product)
    ensures ProductLink(p) == Vendor <==> !HasOwnPage(p)
  {
    VendorTables();
    var title := Lower(p.title);
    var filename := Lower(p.filename);
    if p.subcategory == Some("PLC iQR") {
      var r := FirstFiring(IqrRules, title, filename, IqrDefault);
      assert |r| > |Vendor|;
    } else if p.category == "HMI" && !(p.subcategory.Some? && p.subcategory.value in SeriesPages) {
      var r := FirstFiring(HmiRules, title, filename, Got2000);
      assert |r| > |Vendor|;
    }
  }

  /**
   * The series pages cover five of the six PLC subcategories: MX-F products, like PLC
   * products without a subcategory, fall back to the front page.
   */
  lemma PlcFallbacks(p: Product)
    requires p.category == "PLC"
    requires p.subcategory.None? || p.subcategory == Some("PLC MXF Series")
    ensures ProductLink(p) == Vendor
  {
    FallbackIff(p);
  }

  /** The iQ-R page is that of the first keyword rule that fires, else the general control CPU page. */
  lemma IqrLink(p: Product)
    requires p.subcategory == Some("PLC iQR")
    ensures var r, t, f := ProductLink(p), Lower(p.title), Lower(p.filename);
      || (exists i :: (&& 0 <= i < |IqrRules| && Fires(IqrRules[i], t, f)
                       && (forall j :: 0 <= j < i ==> !Fires(IqrRules[j], t, f))
                       && r == IqrRules[i].url))
      || ((forall i :: 0 <= i < |IqrRules| ==> !Fires(IqrRules[i], t, f)) && r == IqrDefault)
  {
  }

  /** The HMI page is that of the first GOT rule that fires, else the GOT2000 page. */
  lemma HmiLink(p: Product)
    requires p.category == "HMI" && p.subcategory.None?
    ensures var r, t, f := ProductLink(p), Lower(p.title), Lower(p.filename);
      || (exists i :: (&& 0 <= i < |HmiRules| && Fires(HmiRules[i], t, f)
                       && (forall j :: 0 <= j < i ==> !Fires(HmiRules[j], t, f))
                       && r == HmiRules[i].url))
      || ((forall i :: 0 <= i < |HmiRules| ==> !Fires(HmiRules[i], t, f)) && r == Got2000)
  {
  }

  /** A subcategory with a series page links there, whatever the category, title or file name. */
  lemma SeriesLink(p: Product)
    requires p.subcategory.Some? && p.subcategory.value in SeriesPages
    ensures ProductLink(p) == SeriesPages[p.subcategory.value]
  {
  }

  /** PLC iQ-F products link to the iQ-F concept page. */
  lemma IqfLink(p: Product)
    requires p.subcategory == Some("PLC iQF")
    ensures ProductLink(p) == Vendor + "products/cnt/plcf/pmerit/concept/index.html"
  {
    SeriesLink(p);
  }

  /** Otherwise a category with a page of its own links there. */
  lemma CategoryLink(p: Product)
    requires p.category in CategoryPages
    requires p.subcategory.None? || (p.subcategory.value !in SeriesPages && p.subcategory.value != "PLC iQR")
    ensures ProductLink(p) == CategoryPages[p.category]
  {
  }

  /** An HMI product with none of the GOT keywords links to the GOT2000 page. */
  lemma HmiDefault(p: Product)
    requires p.category == "HMI" && p.subcategory.None?
    requires forall i :: 0 <= i < |HmiRules| ==> !Fires(HmiRules[i], Lower(p.title), Lower(p.filename))
    ensures ProductLink(p) == Got2000
  {
  }
}
