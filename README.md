# Contour terminal core, modelled in Dafny

This project models four small pieces of the Contour terminal emulator and proves properties of them.

- **Grapheme boundaries** (`grapheme.dfy`, module `Grapheme`). The pairwise predicate `breakable(a, b)` is modelled with the rule order of the code, together with `nonbreakable` and the derived character classes `control`, `extend` and `spacingMark`. The Unicode property queries are a parameter (`UnicodeProperties`), a record of uninterpreted functions. The segmenting cursor is a class over a caller-owned buffer, and its `operator++` is the stub the code has.
- **Input-binding match modes** (`match_modes.dfy`, module `MatchModeFlags`). The class `MatchModes` holds two 8-bit masks (required enabled, required disabled) with its mutators and queries. The formatter is modelled as seven `advance` steps.
- **Image fragments and ids** (`image.dfy`, module `Images`).
  - `RasterizedImage::fragment` fills a cell-sized RGBA tile in an array through an advancing target index: a row copy, right padding, then bottom padding.
  - `ImagePool::create` hands out ids from a counter field.
- **Static capability database** (`capabilities.dfy`, module `Capabilities`). Covered here:
  - the comparison operators of `Cap`;
  - the first-match lookups by code and by name (string key);
  - `codeFromName`, searching three tables in order;
  - `terminfo()`, which sorts each table by name and prints the entries that qualify.

  The tables are a generic `Database` of three sequences. A few concrete lemmas use constant copies of the full boolean and numeric tables and ten rows of the string table.

`wrappers.dfy` holds the `Option` datatype.

UAX #29 needs state carried across code points for GB11 to GB13. The code has only the pairwise predicate and a cursor whose `++` does not advance. This model follows the code. The gaps are stated as lemmas: regional-indicator parity is ignored, and the Prepend rule is dead.

Two places where the code contradicts its own comments or evident intent are listed under "## Findings". Each is modelled as written, next to a corrected version.

## Model

| member | source | states |
|---|---|---|
| Grapheme.IsExtend | src/crispy/text/GraphemeSegmenter.h:125-130 | Grapheme_Extend or Spacing_Mark code points are Extend; Extend implies one of the three properties; for U+200D the emoji-modifier branch never applies |
| Grapheme.IsControl | src/crispy/text/GraphemeSegmenter.h:132-145 | controls and surrogates are control; control implies one of the listed categories; for U+000D, U+000A, U+200C and U+200D the Format branch never applies |
| Grapheme.IsSpacingMark | src/crispy/text/GraphemeSegmenter.h:147-156 | false when the break class is Extend; true for U+0E33 and U+0EB3 otherwise; true only for Spacing_Mark, U+0E33 or U+0EB3 |
| Grapheme.IsBreakControl | src/crispy/text/GraphemeSegmenter.h:80-84 | the shared guard of GB4 and GB5: CR, LF, line and paragraph separators and controls satisfy it; anything that does is CR, LF or `control` |
| Grapheme.Fires | src/crispy/text/GraphemeSegmenter.h:76-112 | the guard of each rule as the code tests it: the Prepend guard never holds; whenever GB3 applies so does the guard of GB4; GB12/GB13 applies only to two regional indicators |
| Grapheme.Decide | src/crispy/text/GraphemeSegmenter.h:75-116 | first match: with no applying rule the answer is break (GB999); otherwise the verdict of the first rule that applies |
| Grapheme.Breakable | src/crispy/text/GraphemeSegmenter.h:69-117 | CR LF is not broken (GB3); as written, no break after or before CR, LF or control; no break before Extend, ZWJ or a SpacingMark; no break for ZWJ then pictographic; no break between two regional indicators |
| Grapheme.FirstFiring | src/crispy/text/GraphemeSegmenter.h:75-116 | the index of the first rule of a list that applies: no earlier rule applies, and the one found does |
| Grapheme.BreakableIffNoRuleFires | src/crispy/text/GraphemeSegmenter.h:75-116 | `breakable` is true exactly when none of the rules applies (GB999) |
| Grapheme.BreakableFollowsSourceRules | src/crispy/text/GraphemeSegmenter.h:75-116 | `breakable` equals the first-match evaluation of the code's rule list |
| Grapheme.RuleOrderIrrelevantAsWritten | src/crispy/text/GraphemeSegmenter.h:76-113 | every rule as written returns "do not break", so any list with the same rules and verdicts gives the same result, in any order |
| Grapheme.PrependNeverDecides | src/crispy/text/GraphemeSegmenter.h:100-103 | dropping the Prepend rule (guard constant false) from the list changes no result |
| Grapheme.SpacingMarkRuleOnlyAddsThaiLaoAm | src/crispy/text/GraphemeSegmenter.h:96-98 | a SpacingMark that is not already Extend is U+0E33 or U+0EB3 |
| Grapheme.Nonbreakable | src/crispy/text/GraphemeSegmenter.h:119-122 | true exactly when some rule joins a and b |
| Grapheme.NonbreakableIsNegation | src/crispy/text/GraphemeSegmenter.h:119-122 | `nonbreakable(a, b)` is `!breakable(a, b)` for all inputs |
| Grapheme.BreakableCorrected | src/crispy/text/GraphemeSegmenter.h:75-85 | GB4/GB5 as UAX #29 states them: CR LF joined; otherwise break after and before CR, LF and controls; elsewhere agrees with `breakable` |
| Grapheme.BreakableCorrectedFollowsUax29Rules | src/crispy/text/GraphemeSegmenter.h:75-85 | the corrected predicate is the first-match evaluation of the rule list with the UAX #29 verdicts |
| Grapheme.LineFeedNotBrokenAsWritten | src/crispy/text/GraphemeSegmenter.h:79-81 | after LF and before a non-control, the code joins where UAX #29 breaks |
| Grapheme.RegionalIndicatorRun | src/crispy/text/GraphemeSegmenter.h:109-113 | the length of the run of regional indicators that ends before a position: all of it regional indicators, bounded by a non-indicator |
| Grapheme.RegionalIndicatorRunNeverBreaks | src/crispy/text/GraphemeSegmenter.h:109-113 | inside a run of regional indicators, `breakable` never breaks, however many precede |
| Grapheme.ReferenceBreakable | src/crispy/text/GraphemeSegmenter.h:75-116 | a reference verdict for the boundary before position i of a sequence, an extension of the code and not full UAX #29 (the corrected GB3 to GB11 chain of the code, with no GB6 to GB8, no GB9b and GB11 only as ZWJ then pictographic, plus GB12/GB13 parity): the corrected pairwise verdict when the pair is not two regional indicators; joined when GB12/GB13 with an odd run applies and no control is involved; joined only by a pairwise rule or that parity rule |
| Grapheme.PairwiseDivergesOnRegionalIndicatorTriple | src/crispy/text/GraphemeSegmenter.h:109-113 | for three regional indicators that no other rule joins, the reference verdict with GB12/GB13 parity joins the first two and breaks before the third, while `breakable` does not break there |
| Grapheme.GraphemeSegmenter.Range | src/crispy/text/GraphemeSegmenter.h:26-32 | after construction left == right == begin, the current cluster is empty, and the cursor is empty iff begin == end |
| Grapheme.GraphemeSegmenter.View | src/crispy/text/GraphemeSegmenter.h:34-36 | the same for the whole buffer |
| Grapheme.GraphemeSegmenter.Default | src/crispy/text/GraphemeSegmenter.h:38-40 | the default cursor has no buffer and is empty |
| Grapheme.GraphemeSegmenter.Next | src/crispy/text/GraphemeSegmenter.h:42-47 | the stub `++` sets right to left, keeps left and end, and keeps left <= right <= end |
| Grapheme.GraphemeSegmenter.Current | src/crispy/text/GraphemeSegmenter.h:49-52 | the codepoints of the buffer from left up to right |
| Grapheme.GraphemeSegmenter.Empty | src/crispy/text/GraphemeSegmenter.h:54-57 | the current cluster ends at the end of the input; a cursor without a buffer is always empty |
| Grapheme.GraphemeSegmenter.Equals | src/crispy/text/GraphemeSegmenter.h:59-63 | two empty cursors are equal; cursors with the same buffer and bounds are equal; unless both are empty, cursors with a different buffer or different bounds are unequal |
| MatchModeFlags.Bits | src/vtbackend/MatchModes.h:26-36 | the bit of a flag: zero exactly for Default, otherwise a single bit, never the top bit |
| MatchModeFlags.StatusOf | src/vtbackend/MatchModes.h:45-52 | Enabled iff the bits meet the enabled mask; Disabled iff they do not but meet the disabled mask; Any iff they meet neither mask |
| MatchModeFlags.UpdatesKeepOtherFlags | src/vtbackend/MatchModes.h:57-78 | enable, disable and clear of f leave the status of every flag disjoint from f unchanged |
| MatchModeFlags.MatchModes.constructor | src/vtbackend/MatchModes.h:93 | the default value has both masks zero, disjoint, nothing constrained |
| MatchModeFlags.MatchModes.FromMasks | src/vtbackend/MatchModes.h:99-102 | the two-mask constructor stores the masks as given (disjointness is not kept) |
| MatchModeFlags.MatchModes.Status | src/vtbackend/MatchModes.h:45-52 | Enabled iff the flag meets the enabled mask; Disabled iff it does not but meets the disabled mask; Any iff it meets neither |
| MatchModeFlags.MatchModes.HasValue | src/vtbackend/MatchModes.h:69-72 | true exactly when the status is not Any |
| MatchModeFlags.MatchModes.Enable | src/vtbackend/MatchModes.h:57-61 | the flag is set in the enabled mask and cleared in the disabled one, other bits unchanged; the flag then has a value and is Enabled; disjointness is kept |
| MatchModeFlags.MatchModes.Disable | src/vtbackend/MatchModes.h:63-67 | the mirror image of Enable |
| MatchModeFlags.MatchModes.Clear | src/vtbackend/MatchModes.h:74-78 | the flag is cleared in both masks, other bits unchanged; it then has no value; disjointness is kept |
| MatchModeFlags.MatchModes.Reset | src/vtbackend/MatchModes.h:80-84 | both masks zero: `any()` false, hash code 0, every flag Any |
| MatchModeFlags.MatchModes.AnyConstrained | src/vtbackend/MatchModes.h:86 | true iff the hash code is non-zero; true whenever some flag has a value |
| MatchModeFlags.MatchModes.Hashcode | src/vtbackend/MatchModes.h:88-91 | the high byte is the enabled mask and the low byte the disabled mask, so the pair can be read back |
| MatchModeFlags.MatchModes.Equals | src/vtbackend/MatchModes.h:109-112 | equal hash codes exactly when both masks are equal |
| MatchModeFlags.MatchModes.NotEquals | src/vtbackend/MatchModes.h:114-117 | true exactly when some mask differs |
| MatchModeFlags.FormatOrderCoversFlags | src/vtbackend/MatchModes.h:145-151 | the formatter's order (`FormatOrder`) names each of the seven flags other than Default exactly once, each with a name of at least five characters |
| MatchModeFlags.Label | src/vtbackend/MatchModes.h:141-143 | a printed flag is its name, after `~` exactly when the flag is required disabled |
| MatchModeFlags.RenderedAnyIffUnconstrained | src/vtbackend/MatchModes.h:135-154 | the formatter prints "Any" exactly when none of the seven flags is constrained, and otherwise the `\|`-joined labels |
| MatchModeFlags.RenderedFlags | src/vtbackend/MatchModes.h:135-151 | the printed parts are exactly the labels (with `~` when disabled) of the constrained flags (their order, that of the formatter's calls, comes from the definition of `Parts` over `FormatOrder`) |
| MatchModeFlags.Advance | src/vtbackend/MatchModes.h:135-144 | one `advance` call: nothing for an unconstrained flag, else `\|` unless first, `~` if disabled, then the name |
| MatchModeFlags.AdvanceChain | src/vtbackend/MatchModes.h:145-151 | a chain of `advance` steps from "" builds the joined labels of each prefix of the flag order |
| MatchModeFlags.FormatChain | src/vtbackend/MatchModes.h:145-153 | the seven `advance` calls, with "Any" for an empty result, give the rendered text |
| MatchModeFlags.Format | src/vtbackend/MatchModes.h:132-155 | the formatter's result is the rendered text of the two masks |
| Images.XOffset | src/vtbackend/Image.cpp:69 | the tile's pixel column: not negative for a non-negative column |
| Images.YOffset | src/vtbackend/Image.cpp:70 | the tile's pixel line: not negative for a non-negative line |
| Images.AvailableWidth | src/vtbackend/Image.cpp:75-76 | the covered columns: the minimum of what is left of the image right of the tile and the tile width |
| Images.AvailableHeight | src/vtbackend/Image.cpp:77-78 | the covered lines: the minimum of what is left of the image below the tile and the tile height |
| Images.Fragment | src/vtbackend/Image.cpp:64-130 | the tile has exactly `cellSize.area() * 4` bytes, and every byte is the one the tile should hold (image byte where covered, default colour elsewhere) |
| Images.FillRow | src/vtbackend/Image.cpp:103-118 | one covered line: the copied image bytes then the right padding, leaving the target one line further on |
| Images.FillBottom | src/vtbackend/Image.cpp:120-127 | the pixels from the first uncovered line to the end of the tile |
| Images.CopiedByte | src/vtbackend/Image.cpp:105-108 | byte j of line y's copied run lies in the tile and in the image and is the matching image byte |
| Images.PaddedPixel | src/vtbackend/Image.cpp:111-117 | a pixel of a covered line right of the covered columns holds the default colour |
| Images.BottomPixel | src/vtbackend/Image.cpp:121-127 | a pixel index from `availableHeight * cellWidth` up to the area holds the default colour |
| Images.FragmentCopiesCoveredPixels | src/vtbackend/Image.cpp:103-108 | for y < availableHeight and x < availableWidth, tile pixel y*cellW + x equals the image pixel at ((yOff + y) * imgW + xOff + x) * 4 |
| Images.FragmentPadsRight | src/vtbackend/Image.cpp:110-117 | on covered lines, pixels with x in [availableWidth, cellW) are the default colour in R, G, B, A order |
| Images.FragmentPadsBottom | src/vtbackend/Image.cpp:120-127 | every pixel from `availableHeight * cellW` to the area is the default colour in R, G, B, A order |
| Images.ImagePool.constructor | src/vtbackend/Image.cpp:55-62 | the pool starts its counter at the given id |
| Images.ImagePool.Create | src/vtbackend/Image.cpp:132-138 | the new image carries the counter's old value, the given format, data and size; the counter goes up by exactly one |
| Capabilities.StrLessTrichotomy | src/terminal/Capabilities.cpp:42-45 | the name order is total and asymmetric |
| Capabilities.CapLess | src/terminal/Capabilities.cpp:42 | compares names only; less implies different names and not greater |
| Capabilities.CapGreater | src/terminal/Capabilities.cpp:43 | greater is less with the arguments swapped |
| Capabilities.CapLessEq | src/terminal/Capabilities.cpp:44 | less-or-equal is the negation of greater |
| Capabilities.CapGreaterEq | src/terminal/Capabilities.cpp:45 | greater-or-equal is the negation of less |
| Capabilities.CapEq | src/terminal/Capabilities.cpp:46 | equal iff neither less nor greater, iff the names are equal (codes and values ignored) |
| Capabilities.CapNe | src/terminal/Capabilities.cpp:47 | as written, `!=` holds exactly when `==` does |
| Capabilities.CapNeCorrected | src/terminal/Capabilities.cpp:47 | the intended `!=`: the negation of `==`, i.e. less or greater |
| Capabilities.CapOrderTrichotomy | src/terminal/Capabilities.cpp:42-46 | of less, equal and greater at least one holds, and less and greater never both |
| Capabilities.CapNeHoldsOfEqualEntries | src/terminal/Capabilities.cpp:47 | an entry is `!=` to itself as written, and not under the corrected operator |
| Capabilities.IndexOfCode | src/terminal/Capabilities.cpp:336-338 | the first index whose code matches, or the table length when none does |
| Capabilities.ValueByCode | src/terminal/Capabilities.cpp:334-359 | the value of the first entry whose code matches, or the fallback when none does |
| Capabilities.LookupByCode | src/terminal/Capabilities.cpp:336-340 | the loop with early return computes that first-match value |
| Capabilities.BooleanCapabilityByCode | src/terminal/Capabilities.cpp:334-341 | first match by code, else false |
| Capabilities.NumericCapabilityByCode | src/terminal/Capabilities.cpp:343-350 | first match by code converted to unsigned, else `(unsigned)-1` = 2^32 - 1 |
| Capabilities.StringCapabilityByCode | src/terminal/Capabilities.cpp:352-359 | first match by code, else the empty string |
| Capabilities.ToUnsigned | src/terminal/Capabilities.cpp:347-349 | the int-to-unsigned conversion: below 2^32, identity on non-negative values, -v maps to 2^32 - v |
| Capabilities.NumericFallback | src/terminal/Capabilities.cpp:343-350 | with no match the numeric lookup yields 2^32 - 1; a matched value in range comes back unchanged |
| Capabilities.KeyMatches | src/terminal/Capabilities.cpp:364 | a string key matches an entry when it equals its name or its code, and only then (the same test at lines 373 and 382) |
| Capabilities.IndexOfKey | src/terminal/Capabilities.cpp:363-365 | the first index whose name or code matches the key, or the table length when none does |
| Capabilities.ValueByKey | src/terminal/Capabilities.cpp:361-386 | the value of the first entry whose name or code matches, or the fallback |
| Capabilities.LookupByKey | src/terminal/Capabilities.cpp:363-367 | the loop with early return computes that first-match value |
| Capabilities.BooleanCapabilityByName | src/terminal/Capabilities.cpp:361-368 | first match by name or code, else false |
| Capabilities.NumericCapabilityByName | src/terminal/Capabilities.cpp:370-377 | first match by name or code converted to unsigned, else 2^32 - 1 |
| Capabilities.StringCapabilityByName | src/terminal/Capabilities.cpp:379-386 | first match by name or code, else the empty string |
| Capabilities.NameCodes | src/terminal/Capabilities.cpp:392 | the (name, code) pair of every entry, in table order |
| Capabilities.IndexOfName | src/terminal/Capabilities.cpp:393-395 | the first pair with the name, or the length when none has it |
| Capabilities.CodeFromName | src/terminal/Capabilities.cpp:388-398 | the loop returns the code of the first pair with the name in numeric, boolean, string order, or none |
| Capabilities.IndexOfNameInPrefix | src/terminal/Capabilities.cpp:393 | the search over concatenated tables finds the first table's match, or continues into the second |
| Capabilities.CodeOfNameConcat | src/terminal/Capabilities.cpp:393 | searching p + q yields p's result when p has the name and q's otherwise |
| Capabilities.FirstCodeByName | src/terminal/Capabilities.cpp:393-395 | the code of a table's first entry with the name; none exactly when no entry has it |
| Capabilities.CodeFromNameOrder | src/terminal/Capabilities.cpp:388-398 | `codeFromName` answers from the numeric table if it has the name, else from the boolean table, else from the string table |
| Capabilities.InsertByName | src/terminal/Capabilities.cpp:412 | inserting into a name-sorted table keeps it sorted and adds exactly that entry |
| Capabilities.SortByName | src/terminal/Capabilities.cpp:412 | the sorted table is in name order and a permutation of the input |
| Capabilities.Digits | src/terminal/Capabilities.cpp:418 | at least one digit, all in '0'..'9' |
| Capabilities.IntToDecimal | src/terminal/Capabilities.cpp:418 | how `cap.value` is printed: non-empty, a leading '-' exactly for negative values, decimal digits otherwise |
| Capabilities.DigitsRoundTrip | src/terminal/Capabilities.cpp:418 | the printed digits of n read back as n |
| Capabilities.DecimalRoundTrip | src/terminal/Capabilities.cpp:418 | a printed numeric value, sign included, reads back as that value |
| Capabilities.BooleanLine | src/terminal/Capabilities.cpp:413-414 | a line is printed exactly for a named entry whose value is true |
| Capabilities.NumericLine | src/terminal/Capabilities.cpp:417-418 | a line is printed exactly for a named entry |
| Capabilities.StringLine | src/terminal/Capabilities.cpp:421-422 | a line is printed exactly for a named entry |
| Capabilities.Rendered | src/terminal/Capabilities.cpp:412-422 | the entries of a section that produce a line: exactly those of the table whose line is non-empty |
| Capabilities.SectionSkipsUnrendered | src/terminal/Capabilities.cpp:412-422 | a section is the lines of its rendered entries only |
| Capabilities.EmptyNamesNeverRendered | src/terminal/Capabilities.cpp:413-421 | no entry with an empty name (such as "TN") is rendered in any section; only true booleans are |
| Capabilities.BooleanSection | src/terminal/Capabilities.cpp:412-414 | the boolean loop prints the section of the sorted booleans |
| Capabilities.NumericSection | src/terminal/Capabilities.cpp:416-418 | the numeric loop prints the section of the sorted numerics |
| Capabilities.StringSection | src/terminal/Capabilities.cpp:420-422 | the string loop prints the section of the sorted strings, values escaped |
| Capabilities.Terminfo | src/terminal/Capabilities.cpp:400-425 | the header line, then the boolean, numeric and string sections of the name-sorted tables |
| Capabilities.StaticBooleanLookup | src/terminal/Capabilities.cpp:63 | "am" is found and is true |
| Capabilities.StaticNumericLookups | src/terminal/Capabilities.cpp:79 | "Co" yields 256; a missing code yields 2^32 - 1 |
| Capabilities.StaticStringLookup | src/terminal/Capabilities.cpp:87 | "bl" yields "^G" |
| Capabilities.StaticCodeOfNumericName | src/terminal/Capabilities.cpp:79 | `codeFromName("colors")` is "Co" |
| Capabilities.StaticCodeOfBooleanName | src/terminal/Capabilities.cpp:64 | `codeFromName("bce")` is "ut", found after the numeric table is searched |

## Left out

- The Unicode property tables and queries (`contains`, `grapheme_cluster_break`, `extended_pictographic`, `emoji_modifier`, `isRegionalIndicator`) are generated external data. They are the fields of the `UnicodeProperties` parameter and stay uninterpreted.
- GB6 to GB8 and the regional-indicator and pictographic run state are absent from the code. The model of `breakable` does not add them. Regional-indicator parity appears only in the reference verdict `Grapheme.ReferenceBreakable`, an extension of the code, which `Grapheme.PairwiseDivergesOnRegionalIndicatorTriple` uses to state what the missing parity costs. The pictographic run of GB11 is not modelled anywhere.
- The segmenter has no partitioning loop, because `operator++` is a stub. The model's pointers are indices into a buffer, and a default cursor has no buffer.
- `src/crispy/algorithm.h` only forwards to standard algorithms, including parallel overloads. It is not part of this model.
- `src/vtpty/MockPty.cpp` is a pseudo-terminal I/O test double. It is not part of this model.
- The fmt `parse` boilerplate of the MatchModes formatter, and the `format_to` output step, are left out. `Format` returns the string.
- MatchModeFlags.MatchModes.AnyConstrained: `any()` tests the whole masks. The contract links it to the hash code and to `has_value`, not flag by flag, because bits that no flag names also count.
- Images.Fragment: the alignment and resize hints are TODOs in the code and are not modelled.
- Images.Fragment: the RGB and PNG formats are not converted in the code, which reads 4 bytes per pixel whatever the format. The model reads the same bytes. Its requires asks for `size.area() * 4` bytes of data, so it admits no image whose data has the RGB size of 3 bytes per pixel, even where the code's reads stay inside that data.
- Images.Fragment: the requires is stronger than what the code needs. It asks for a line and a column that are not negative, available extents that are not negative, and pixel data of at least `size.area() * 4` bytes. Two kinds of input that it excludes are read inside the data by the code. The first is data under 4 bytes per pixel, such as RGB, when the last byte the tile reads still lies inside that data. The second is a negative column on a line after the first, where the code reads the tail of the previous image row. For the other excluded inputs the code goes out of bounds. A negative line, or a negative column on line 0, reads before the data. A negative available width gives the copy a reversed range and fills more than a tile row on the right. A negative available height makes the bottom fill write past the tile.
- Images.Fragment: `int` overflow of the offset arithmetic is not modelled. Integers are unbounded.
- Images.Fragment: the three loops of `fragment` are split into the methods `FillRow` and `FillBottom`, one call per outer iteration. They keep the code's target pointer as an index.
- Images.ImagePool.Create: the width of `ImageId` is not visible here, so the counter is an unbounded `nat` without wrap-around.
- Images.ImagePool.Create: `shared_ptr` ownership and the `onImageRemove` callback are not modelled. The same goes for `ImageStats`, `rasterize`, `link`, `findImageByName`, `unlink`, `clear`, `inspect` and the destructors, which rely on the LRU hashtable, reference counting or stream output.
- Capabilities.StringLine: `crispy::escape` is foreign code. It is the `escape` parameter, an uninterpreted string function.
- Capabilities.ValueByKey: how a `Code` compares with a string key comes from `Capabilities.h`, which is not part of this model. It is the `codeIs` parameter, and `Code` is a record around its two-character string.
- Capabilities.SortByName: `actions::sort` (std::sort) does not fix the order of entries with equal names. The model sorts by one particular stable insertion sort. Its result is proved sorted and a permutation, and the order of duplicates such as the two "kmous" rows is that of this sort.
- Capabilities.Terminfo: the range-v3 copy and the `stringstream` are modelled as string concatenation.
- Capabilities.StringCapsExcerpt: the string table has over 200 rows. The model's concrete tables are the full boolean and numeric tables and ten rows of the string table, in table order: "TN" (no name), "bl", "md", "bt", the first "kmous", "setrgbf" and "setrgbb" (no code), "ka1", the second "kmous", and "RGB" (no code). Other rows, "acsc" among them, are not copied. The lookups and `terminfo` are proved for any table.
- Capabilities.BooleanCapabilityByCode: the static database is the constant tables, while the model's lookups take the tables as a `Database` argument. This lets the properties hold for any table contents.

## Findings

| source | as written | input that shows it | evidently intended | confidence | as-written member | corrected member |
|---|---|---|---|---|---|---|
| src/crispy/text/GraphemeSegmenter.h:79-85 | GB4 and GB5 return false ("do not break") after and before CR, LF and controls | U+000A followed by 'a': `breakable` is false | break there, as the comment at line 75 and GB4/GB5 of UAX #29 say | not executed; follows from the code text | Grapheme.LineFeedNotBrokenAsWritten | Grapheme.BreakableCorrected |
| src/terminal/Capabilities.cpp:47 | `operator!=` returns `a.name == b.name` | an entry compared with itself: `!=` is true | `a.name != b.name`, the negation of `==` | not executed; follows from the code text | Capabilities.CapNeHoldsOfEqualEntries | Capabilities.CapNeCorrected |
