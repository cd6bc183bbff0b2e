# Products catalog and contact form of a factory-automation distributor site

This project models the two pieces of logic behind the site's Products and Contact pages.

The Products page builds its catalog from image files stored under `dynamic-products/<folder>/`:

- The folder name decides each product's category. For the PLC line it also decides one of six series subcategories (`PathClassifier`).
- The file name gives the product's title and a fixed description (`ProductInfo`).
- The products are then organized into page sections (`Catalog`):
  - a sorted list of categories;
  - a grouping by key;
  - the ordered section list: a PLC header, then its series subsections, then every other category.
- Each product card links to a page on the vendor's site (`ProductUrl`).

The Contact page (`Contact`) holds six form fields. Its submit handler does three things in order:

1. It checks the three required fields.
2. It checks the e-mail address against `^[^\s@]+@[^\s@]+\.[^\s@]+$`.
3. On success it clears the form.

JavaScript's string built-ins are modelled in `Text` as functions with proved contracts:

- `split` and `join`, which are inverses of each other;
- `trim`, `toLowerCase` and `toUpperCase`;
- `includes`;
- collapsing white-space runs;
- the default `sort` order.

The module structure follows the source:

| module | source |
|---|---|
| `PathClassifier` | `getCategoryFromPath` |
| `ProductInfo` | `generateProductInfo` and `formatProductName` |
| `Catalog` | `allProducts`, `allCategories`, `plcSubcategories`, `filteredProducts`, `groupedProducts`, `organizeProducts` |
| `ProductUrl` | `getProductUrl` |
| `Contact` | `formData`, `handleSubmit` and the field `onChange` handlers |

`Contact.ContactForm` is a class whose `data` field the methods update, as React state is updated. `Catalog.OrganizeProducts` appends sections in loops, as the page does. Both are proved against specification functions.

The title is empty for the file names `""` and `".png"`; `ProductInfo.TitleEmptyIff` states exactly when.

## Model

| member | source | states |
|---|---|---|
| Text.Lower | src/pages/Products.tsx:41 | `toLowerCase`: the result is a case variant of the input and holds no upper-case letter |
| Text.Upper | src/pages/Products.tsx:113 | `toUpperCase`: a case variant of the input holding no lower-case letter |
| Text.Contains | src/pages/Products.tsx:44 | `includes`: true exactly when the pattern occurs at some position |
| Text.Split | src/pages/Products.tsx:30 | `split("/")`: at least one part, and no part contains the separator |
| Text.JoinSplit | src/pages/Products.tsx:107-126 | joining the parts of a split with the same separator gives back the original string |
| Text.SplitJoin | src/pages/Products.tsx:107-126 | splitting a join of separator-free parts gives back the parts |
| Text.Join | src/pages/Products.tsx:126 | `join(" ")`: the first part leads and there is one separator per gap, so the length is the parts' total plus the number of gaps; `JoinSplit` and `SplitJoin` make it the inverse of `Split` |
| Text.TrimStart | src/pages/Products.tsx:100 | removes exactly the leading white space: the result is a suffix and starts with a non-space |
| Text.TrimEnd | src/pages/Products.tsx:100 | removes exactly the trailing white space: the result is a prefix and ends with a non-space |
| Text.CollapseSpaces | src/pages/Products.tsx:99 | `replace(/\s+/g, " ")`: only ' ' remains as white space, never two in a row, a leading non-space character stays first, and the result is no longer than the input |
| Text.CollapseIsSqueeze | src/pages/Products.tsx:99 | the collapse equals an independent definition: blank every white-space character, then squeeze each run of spaces to one |
| Text.CollapseKeepsNonSpace | src/pages/Products.tsx:99 | collapsing keeps every non-white-space character, in order |
| Text.Trim | src/pages/Products.tsx:100 | `trim`: the input less white space at both ends only; the result is a slice bordered by white space that neither starts nor ends with white space |
| Text.NonSpaceTrim | src/pages/Products.tsx:100 | trimming keeps every non-white-space character, in order |
| Text.ReplaceFirst | src/pages/Products.tsx:169 | `replace` with a string pattern: unchanged without an occurrence, otherwise exactly the first occurrence is replaced |
| Text.LessIrreflexive | src/pages/Products.tsx:196 | the sort order of `sort()` is irreflexive |
| Text.LessTransitive | src/pages/Products.tsx:196 | the sort order is transitive |
| Text.LessTotal | src/pages/Products.tsx:196 | any two distinct strings are ordered one way or the other |
| PathClassifier.FirstIndex | src/pages/Products.tsx:31 | `findIndex`: None exactly when the segment is absent, otherwise its first position |
| PathClassifier.ClassifyPath | src/pages/Products.tsx:29-37 | a subcategory is only ever set with category "PLC" and is one of `plcSubcategories` |
| PathClassifier.MissingMarker | src/pages/Products.tsx:33-35 | a path without a `dynamic-products` segment is filed under "Other" |
| PathClassifier.TrailingMarker | src/pages/Products.tsx:33-35 | a path whose only `dynamic-products` segment is the last one is filed under "Other" |
| PathClassifier.MarkerFolder | src/pages/Products.tsx:37-41 | otherwise the segment right after the first marker decides |
| PathClassifier.Normalize | src/pages/Products.tsx:41 | `toLowerCase().trim()`: a lower-cased slice of the folder name bordered by white space, with no upper-case letter and no white space at either end |
| PathClassifier.ClassifyFolder | src/pages/Products.tsx:37-87 | the category is one of the eight rule categories or the folder name itself; a subcategory is set exactly when the normalized name holds "plc" and a series token, and then it is a listed PLC series of a PLC product |
| PathClassifier.Rules | src/pages/Products.tsx:41-87 | the category is one of the eight rule categories, or the folder name without a subcategory; a subcategory implies category "PLC", a listed subcategory, and "plc" in the folder name |
| PathClassifier.PlcFirstMatch | src/pages/Products.tsx:44-61 | with "plc" present, the first series token present (in list order) picks the subcategory |
| PathClassifier.SubcategoryIff | src/pages/Products.tsx:44-61 | a subcategory is set exactly when "plc" and some series token are both present |
| PathClassifier.IntegratedHmiIsHmi | src/pages/Products.tsx:64-81 | an "integrated hmi" folder without a PLC match is filed under "HMI", because the "hmi" test comes first |
| PathClassifier.HmiRule | src/pages/Products.tsx:44-66 | a folder name containing "hmi" gives "PLC" or "HMI" |
| PathClassifier.Fallback | src/pages/Products.tsx:86-87 | a folder name whose normalized form matches none of the rules is its own category, in its original case and untrimmed |
| PathClassifier.FolderNeverIntegratedHmi | src/pages/Products.tsx:64-81 | no folder name is ever classified "Integrated HMI": the folder "Integrated HMI" itself contains "hmi" |
| PathClassifier.NeverIntegratedHmi | src/pages/Products.tsx:79-81 | no path is ever classified "Integrated HMI" |
| ProductInfo.StripExtension | src/pages/Products.tsx:92 | the name is unchanged, or exactly a final "." plus an extension without '.' or '/' is removed |
| ProductInfo.StripExtensionRemoves | src/pages/Products.tsx:92 | any base followed by "." and such an extension loses exactly that suffix |
| ProductInfo.MatchFirstSpec | src/pages/Products.tsx:96-98 | regex alternation: no match exactly when no alternative matches, otherwise the first alternative that matches decides |
| ProductInfo.MatchFirst | src/pages/Products.tsx:96-98 | the alternation's match lies within the name; `MatchFirstSpec` states which alternative decides |
| ProductInfo.MatchPhraseIff | src/pages/Products.tsx:96-98 | a phrase pattern such as `low\s+voltage` matches a prefix of length m exactly when that prefix spells the words in any case with white-space runs between them |
| ProductInfo.MatchPhrase | src/pages/Products.tsx:96-98 | a match of a phrase pattern starts with its first word in any case and lies within the name; `MatchPhraseIff` pins its length exactly |
| ProductInfo.MatchFirstText | src/pages/Products.tsx:96-98 | when an alternative's text starts the name and no earlier alternative matches, the alternation consumes that text and the white space after it |
| ProductInfo.MatchFirstNone | src/pages/Products.tsx:96-98 | when no alternative's text starts the name, the alternation matches nothing |
| ProductInfo.StripCategoryWord | src/pages/Products.tsx:96 | the result is a suffix of the input |
| ProductInfo.StripCategoryWordRemoves | src/pages/Products.tsx:96 | a leading category word in any case, with all the white space after it, is removed when no earlier alternative matches |
| ProductInfo.StripCategoryWordKeeps | src/pages/Products.tsx:96 | a name that starts with no category word is unchanged |
| ProductInfo.StripSeries | src/pages/Products.tsx:97 | the result is a suffix of the input; `StripSeriesRemoves`, `StripSeriesAfterPlc`, `StripSeriesKeeps` and `StripSeriesNeedsSpace` say what is removed in each case |
| ProductInfo.StripSeriesRemoves | src/pages/Products.tsx:97 | a leading series word in any case, with the white-space run after it (at least one character), is removed when no earlier alternative matches |
| ProductInfo.StripSeriesAfterPlc | src/pages/Products.tsx:97 | "plc" in any case, white space, a series word and white space are all removed together |
| ProductInfo.SeriesAfterPlc | src/pages/Products.tsx:97 | the `(plc\s+)` group followed by a series word and white space: the match lies within the name; `StripSeriesAfterPlc` states what it covers |
| ProductInfo.StripSeriesKeeps | src/pages/Products.tsx:97 | a name that starts with no series text, with or without "plc", is unchanged |
| ProductInfo.StripSeriesNeedsSpace | src/pages/Products.tsx:97 | a series word, with or without "plc", that is not followed by white space ("iQF-FX5U", "iQR" alone) leaves the name unchanged, since this expression ends in `\s+` where the other two end in `\s*` |
| ProductInfo.StripLongPrefix | src/pages/Products.tsx:98 | the result is a suffix of the input |
| ProductInfo.StripLongPrefixRemoves | src/pages/Products.tsx:98 | a leading long category phrase in any case, with all the white space after it, is removed when no earlier alternative matches |
| ProductInfo.StripLongPrefixKeeps | src/pages/Products.tsx:98 | a name that starts with no long category phrase is unchanged |
| ProductInfo.CleanName | src/pages/Products.tsx:95-100 | the clean name is never longer than the name without extension |
| ProductInfo.CleanNameTidy | src/pages/Products.tsx:99-100 | the clean name has no leading, trailing or doubled space and no white space but ' ' |
| ProductInfo.CleanNameUnprefixed | src/pages/Products.tsx:95-100 | a name with none of the prefixes only has its white space normalised, and keeps all its other characters in order |
| ProductInfo.Capitalize | src/pages/Products.tsx:124 | `charAt(0).toUpperCase() + slice(1).toLowerCase()`: a case variant of the word whose first character is not lower-case and whose other characters are not upper-case |
| ProductInfo.FormatWord | src/pages/Products.tsx:109-125 | each word only changes letter case |
| ProductInfo.FormatWordCases | src/pages/Products.tsx:112-124 | a word is upper-cased if it has a digit or starts with a letter followed by a letter, a digit, or '-' and a letter or digit; otherwise it is capitalised |
| ProductInfo.FormatWordUpper | src/pages/Products.tsx:112-113 | any word with a digit or two leading letters comes out fully upper-cased |
| ProductInfo.FormatName | src/pages/Products.tsx:103-127 | the result differs from the name only in letter case, keeps every space where it was, and its ' '-separated words are the name's words, each formatted |
| ProductInfo.Title | src/pages/Products.tsx:131 | a case variant of the clean name, or of the bare name when the clean name is empty; empty exactly when both are |
| ProductInfo.Describe | src/pages/Products.tsx:167-173 | the description is never empty |
| ProductInfo.SubcategoryKey | src/pages/Products.tsx:169 | `replace("PLC ", "")`: a leading "PLC " is removed; a subcategory without "PLC " is unchanged; otherwise exactly four characters go |
| ProductInfo.PlcSubcategoryKey | src/pages/Products.tsx:169 | removing "PLC " from a PLC subcategory gives the key of its own description |
| ProductInfo.DescribePlcSubcategory | src/pages/Products.tsx:169-170 | every PLC subcategory, less its "PLC " prefix, has its own entry and gets it |
| ProductInfo.DescribeUnknownCategory | src/pages/Products.tsx:167 | a category outside the table gets the generic description |
| ProductInfo.DescribeCategoryDefault | src/pages/Products.tsx:167-173 | without a subcategory entry, the category default is used: the clean-name lookup can only hit "default" |
| ProductInfo.GenerateProductInfo | src/pages/Products.tsx:91-176 | the description is never empty |
| ProductInfo.TitleEmptyIff | src/pages/Products.tsx:129-131 | the title is empty exactly when the name without extension is empty |
| ProductInfo.TitleShape | src/pages/Products.tsx:131 | the title is a case variant of the clean name, or of the bare name when the clean name is empty |
| Catalog.Filename | src/pages/Products.tsx:180 | the file name holds no '/' |
| Catalog.FilenameEndsPath | src/pages/Products.tsx:180 | the file name is the path's last segment: it ends the path and follows a '/' or is the whole path |
| Catalog.MakeProduct | src/pages/Products.tsx:179-193 | a product's file name has no '/', its name is the file name without extension, its subcategory is a listed PLC series of a PLC product, and its description is non-empty |
| Catalog.AllProducts | src/pages/Products.tsx:179-193 | one product per imported image, in import order, each built from its own image |
| Catalog.InsertSorted | src/pages/Products.tsx:196 | inserting into a strictly sorted list keeps it strictly sorted and adds exactly the new element |
| Catalog.SortedUnique | src/pages/Products.tsx:196 | `Array.from(new Set(xs)).sort()`: strictly sorted, with exactly the elements of `xs` |
| Catalog.AllCategories | src/pages/Products.tsx:196 | strictly sorted, and holds exactly the categories that occur |
| Catalog.SortedDistinct | src/pages/Products.tsx:196 | the category list has no duplicates |
| Catalog.FilterCategory | src/pages/Products.tsx:323 | keeps exactly the products of the category; `FilterCategoryAppend` and `FilterCategoryCounts` add order and multiplicity |
| Catalog.FilterCategoryAppend | src/pages/Products.tsx:323 | `filter` keeps the order: filtering a concatenation is the concatenation of the filtered parts |
| Catalog.FilterCategoryCounts | src/pages/Products.tsx:323 | every copy of a product of the category is kept, and no copy of any other |
| Catalog.FilterSubcategory | src/pages/Products.tsx:353 | keeps exactly the products of the subcategory; `FilterSubcategoryAppend` and `FilterSubcategoryCounts` add order and multiplicity |
| Catalog.FilterSubcategoryAppend | src/pages/Products.tsx:353 | `filter` keeps the order: filtering a concatenation is the concatenation of the filtered parts |
| Catalog.FilterSubcategoryCounts | src/pages/Products.tsx:353 | every copy of a product of the subcategory is kept, and no copy of any other |
| Catalog.Filtered | src/pages/Products.tsx:322-324 | keeps every product when no category is selected, otherwise exactly those of the selected category |
| Catalog.FilteredAppend | src/pages/Products.tsx:322-324 | the filtered list keeps the products' order |
| Catalog.FilteredCounts | src/pages/Products.tsx:322-324 | every copy of a product the filter lets through is kept, and nothing else |
| Catalog.GroupKey | src/pages/Products.tsx:328 | the subcategory or else the category: a non-empty subcategory is the key, otherwise the category |
| Catalog.GroupKeyOfProduct | src/pages/Products.tsx:328 | an imported product is grouped under its listed PLC series when it has one, else under its category |
| Catalog.KeySet | src/pages/Products.tsx:328 | exactly the group keys that occur |
| Catalog.FilterKey | src/pages/Products.tsx:327-334 | keeps exactly the products with the key; `FilterKeyAppend` and `FilterKeyCounts` add order and multiplicity |
| Catalog.FilterKeyAppend | src/pages/Products.tsx:327-334 | a group keeps the products' order: the group of a concatenation is the concatenation of the groups |
| Catalog.FilterKeyCounts | src/pages/Products.tsx:327-334 | a group holds every copy of each product with its key, and nothing else |
| Catalog.FilterKeyAbsent | src/pages/Products.tsx:329-331 | a key not yet seen has no products so far, so it starts with an empty array |
| Catalog.GroupStep | src/pages/Products.tsx:328-332 | pushing one more product onto its key's array keeps the grouping exact for the longer prefix |
| Catalog.GroupProducts | src/pages/Products.tsx:327-334 | the keys are exactly the keys that occur, and each holds exactly its products, in order |
| Catalog.AppendSubSections | src/pages/Products.tsx:352-361 | the subcategory loop appends exactly the non-empty subsections in list order |
| Catalog.AppendCategorySections | src/pages/Products.tsx:366-377 | the category loop appends exactly the shown, non-empty category sections |
| Catalog.OrganizeProducts | src/pages/Products.tsx:337-380 | the sections built step by step are those of the section-list specification |
| Catalog.SubSectionsShape | src/pages/Products.tsx:352-361 | every subsection is named after a listed subcategory and holds exactly its non-empty product list |
| Catalog.CategorySectionsShape | src/pages/Products.tsx:366-377 | every category section is a shown category and holds exactly its non-empty filtered product list |
| Catalog.SubSectionsOrdered | src/pages/Products.tsx:352 | subsection names occur in the order of the subcategory list |
| Catalog.CategorySectionsSorted | src/pages/Products.tsx:366 | category sections follow the sorted category list |
| Catalog.SubSectionFor | src/pages/Products.tsx:353-360 | every subcategory with products gets its section |
| Catalog.CategorySectionFor | src/pages/Products.tsx:367-375 | every shown category with filtered products gets its section |
| Catalog.PlcPartShape | src/pages/Products.tsx:341-363 | the PLC part exists exactly when it is shown and a PLC product exists; it opens with the header and its subsections hold filtered PLC products of that series |
| Catalog.CategoryPartShape | src/pages/Products.tsx:366-377 | category sections are non-empty, never "PLC", shown, and hold filtered products of that category |
| Catalog.SectionsWellFormed | src/pages/Products.tsx:337-380 | the header comes first exactly when PLC is shown and present; every other section is non-empty and holds only its own products |
| Catalog.SectionsWithinFilter | src/pages/Products.tsx:337-380 | sections never show a product that the filter excludes |
| Catalog.SectionsRespectFilter | src/pages/Products.tsx:341-367 | with a filter, only that category's section remains, or the PLC part for "PLC" |
| Catalog.OrganizedAt | src/pages/Products.tsx:337-380 | each position of the section list is the header, a subsection or a category section, in that order |
| Catalog.SubsectionsInOrder | src/pages/Products.tsx:352-361 | subsections follow `plcSubcategories` order |
| Catalog.CategorySectionsInOrder | src/pages/Products.tsx:366-377 | category sections are strictly sorted by name |
| Catalog.SubsectionsFirst | src/pages/Products.tsx:341-377 | every subsection precedes every category section |
| Catalog.ShownInSubsection | src/pages/Products.tsx:352-361 | a filtered PLC product of a listed series is shown in that series' subsection |
| Catalog.ShownInCategory | src/pages/Products.tsx:366-377 | a filtered non-PLC product is shown in its category's section |
| Catalog.ShownIff | src/pages/Products.tsx:341-377 | a filtered product is shown exactly unless it is a PLC product without a listed series |
| ProductUrl.FirstFiring | src/pages/Products.tsx:220-247 | the first keyword rule that fires decides, otherwise the default; links stay under the vendor's site |
| ProductUrl.VendorTables | src/pages/Products.tsx:209-316 | every table link lies under the vendor's site and is longer than the bare site address |
| ProductUrl.ProductLink | src/pages/Products.tsx:209-316 | every product link lies under the vendor's site |
| ProductUrl.FallbackIff | src/pages/Products.tsx:209-316 | the link is the front page exactly when the product has no series, iQ-R, HMI or category page |
| ProductUrl.PlcFallbacks | src/pages/Products.tsx:215-262 | MX-F products and PLC products without a series fall back to the front page |
| ProductUrl.IqrLink | src/pages/Products.tsx:220-247 | an iQ-R product links to the page of the first keyword rule that fires on its lower-cased title or file name, or to the general control CPU page when none fires |
| ProductUrl.HmiLink | src/pages/Products.tsx:271-286 | an HMI product links to the page of the first GOT rule that fires, or to the GOT2000 page when none fires |
| ProductUrl.SeriesLink | src/pages/Products.tsx:214-263 | a subcategory with a series page links there, whatever the category, title or file name |
| ProductUrl.IqfLink | src/pages/Products.tsx:215-217 | an iQ-F product links to the iQ-F concept page |
| ProductUrl.CategoryLink | src/pages/Products.tsx:265-312 | otherwise a category with a page of its own links to it |
| ProductUrl.HmiDefault | src/pages/Products.tsx:271-285 | an HMI product without GOT keywords links to the GOT2000 page |
| Contact.With | src/pages/Contact.tsx:134 | an `onChange` update changes its own field and leaves the other five alone |
| Contact.FieldsDetermineForm | src/pages/Contact.tsx:15-22 | two forms are equal when every field is |
| Contact.IndexOfChar | src/pages/Contact.tsx:38 | the first position of '@', or None exactly when there is none |
| Contact.IsValidEmail | src/pages/Contact.tsx:38-39 | the e-mail check accepts exactly the language of `^[^\s@]+@[^\s@]+\.[^\s@]+$` |
| Contact.EmailShape | src/pages/Contact.tsx:38 | a match means: no white space, exactly one '@' (not first), and a dot after it that neither follows it directly nor ends the address |
| Contact.Validate | src/pages/Contact.tsx:28-46 | "Missing Information" exactly when a required field is empty; "Invalid Email" exactly when they are filled but the address does not match; otherwise sent |
| Contact.OptionalFields | src/pages/Contact.tsx:28 | company, phone and subject never change the outcome |
| Contact.ClearedFormIncomplete | src/pages/Contact.tsx:53-61 | submitting the cleared form reports missing information |
| Contact.ContactForm.constructor | src/pages/Contact.tsx:15-22 | the form starts with six empty fields |
| Contact.ContactForm.Edit | src/pages/Contact.tsx:134-189 | a field edit sets exactly that field |
| Contact.ContactForm.Submit | src/pages/Contact.tsx:24-62 | the outcome is the validation of the current form; a sent message clears the form, any other outcome leaves it unchanged |

## Left out

- The eager image import (`import.meta.glob`) is left out. Its file paths and image references are the input `Catalog.Asset`, and the image reference is an opaque string.
- Rendering is left out: React components, animation, SEO hooks, toasts, the image `onError` handler, navigation and the static page content. Only the toast that a submission ends with is kept, as `Contact.Outcome`.
- `toLowerCase` and `toUpperCase` map ASCII letters only, and the `/i` flag likewise. Non-ASCII case mapping is not modelled.
- The white-space class `\s` is modelled by its character list. Characters are Unicode scalar values, not UTF-16 code units.
- Catalog.SortedUnique: orders strings by code point, while JavaScript's `sort` compares UTF-16 code units. The two orders differ only between characters above U+FFFF and those in U+E000–U+FFFF.
- The description table and the grouping object are plain JavaScript objects. Lookups of inherited keys such as "constructor" are not modelled: a category or key of that name would find an `Object.prototype` member.
- `groupedProducts` is computed by the page but never read. `Catalog.GroupProducts` models it on the filtered products it is given.
- Regular expressions are modelled as the prefix matchers they amount to. There is no general regex engine.
- Contact.ContactForm.Submit: `preventDefault` and the toast display are not modelled. Only the outcome and the new form state are.
