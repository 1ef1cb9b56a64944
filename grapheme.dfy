/**
 * Model of crispy::text::GraphemeSegmenter: the pairwise grapheme cluster
 * boundary predicate `breakable` (after the Grapheme Cluster Boundary Rules of
 * UAX #29, revision 27, section 3.1.1), the three character classes it is built
 * on, and the segmenting cursor, whose advance operation is still a stub.
 *
 * The Unicode property tables are external generated data.  They enter the
 * model as a record of uninterpreted query functions, `UnicodeProperties`, that
 * every predicate takes as its first argument.
 */
module Grapheme {
  import opened Wrappers

  /** A UTF-32 code unit (char32_t): any 32-bit value, not only Unicode scalar values. */
  newtype char32 = x: int | 0 <= x < 0x1_0000_0000

  const CarriageReturn: char32 := 0x000D
  const LineFeed: char32 := 0x000A
  const ZeroWidthNonJoiner: char32 := 0x200C
  const ZeroWidthJoiner: char32 := 0x200D
  /** THAI CHARACTER SARA AM and LAO VOWEL SIGN AM, the two SpacingMark exceptions. */
  const ThaiSaraAm: char32 := 0x0E33
  const LaoVowelSignAm: char32 := 0x0EB3

  /** The General_Category values the segmenter asks about. */
  datatype GeneralCategory =
    | LineSeparator | ParagraphSeparator | ControlCategory | Surrogate
    | Unassigned | Format | SpacingMarkCategory

  /** The core properties the segmenter asks about. */
  datatype CoreProperty = GraphemeExtend | DefaultIgnorableCodePoint

  /** Values of the Grapheme_Cluster_Break property. */
  datatype GraphemeClusterBreak =
    | CR | LF | Control | Extend | ZWJ | RegionalIndicator | Prepend
    | SpacingMark | L | V | T | LV | LVT | Other

  /**
   * The property queries of the Unicode tables: `contains` on a general
   * category or a core property, `grapheme_cluster_break` (which may have no
   * value), `extended_pictographic`, `emoji_modifier` and `isRegionalIndicator`.
   */
  datatype UnicodeProperties = UnicodeProperties(
    inCategory: (GeneralCategory, char32) -> bool,
    hasProperty: (CoreProperty, char32) -> bool,
    graphemeClusterBreak: char32 -> Option<GraphemeClusterBreak>,
    extendedPictographic: char32 -> bool,
    emojiModifier: char32 -> bool,
    isRegionalIndicator: char32 -> bool)

  // ---------------------------------------------------------------------------
  // The derived character classes

  /** `extend`: Grapheme_Extend, or category Spacing_Mark, or an emoji modifier other than ZWJ. */
  function IsExtend(u: UnicodeProperties, c: char32): (r: bool)
    ensures u.hasProperty(GraphemeExtend, c) || u.inCategory(SpacingMarkCategory, c) ==> r
    ensures r ==> u.hasProperty(GraphemeExtend, c) || u.inCategory(SpacingMarkCategory, c) || u.emojiModifier(c)
    // the emoji-modifier branch never admits ZWJ itself
    ensures c == ZeroWidthJoiner ==>
      (r <==> u.hasProperty(GraphemeExtend, c) || u.inCategory(SpacingMarkCategory, c))
  {
    || u.hasProperty(GraphemeExtend, c)
    || u.inCategory(SpacingMarkCategory, c)
    || (u.emojiModifier(c) && c != ZeroWidthJoiner)
  }

  /**
   * `control`: a line or paragraph separator, a control, a surrogate, an
   * unassigned default-ignorable code point, or a format character other than
   * CR, LF, ZWNJ and ZWJ.
   */
  function IsControl(u: UnicodeProperties, ch: char32): (r: bool)
    ensures u.inCategory(ControlCategory, ch) || u.inCategory(Surrogate, ch) ==> r
    ensures r ==>
      || u.inCategory(LineSeparator, ch) || u.inCategory(ParagraphSeparator, ch)
      || u.inCategory(ControlCategory, ch) || u.inCategory(Surrogate, ch)
      || u.inCategory(Unassigned, ch) || u.inCategory(Format, ch)
    // the Format branch never holds for CR, LF, ZWNJ and ZWJ
    ensures (ch == CarriageReturn || ch == LineFeed || ch == ZeroWidthNonJoiner || ch == ZeroWidthJoiner) ==>
      (r <==>
        || u.inCategory(LineSeparator, ch) || u.inCategory(ParagraphSeparator, ch)
        || u.inCategory(ControlCategory, ch) || u.inCategory(Surrogate, ch)
        || (u.inCategory(Unassigned, ch) && u.hasProperty(DefaultIgnorableCodePoint, ch)))
  {
    || u.inCategory(LineSeparator, ch)
    || u.inCategory(ParagraphSeparator, ch)
    || u.inCategory(ControlCategory, ch)
    || u.inCategory(Surrogate, ch)
    || (u.inCategory(Unassigned, ch) && u.hasProperty(DefaultIgnorableCodePoint, ch))
    || (&& u.inCategory(Format, ch)
        && ch != CarriageReturn
        && ch != LineFeed
        && ch != ZeroWidthNonJoiner
        && ch != ZeroWidthJoiner)
  }

  /**
   * `spacingMark`: a code point whose break class is not Extend and that is of
   * category Spacing_Mark or is U+0E33 or U+0EB3.
   */
  function IsSpacingMark(u: UnicodeProperties, c: char32): (r: bool)
    ensures u.graphemeClusterBreak(c) == Some(Extend) ==> !r
    ensures u.graphemeClusterBreak(c) != Some(Extend) && (c == ThaiSaraAm || c == LaoVowelSignAm) ==> r
    ensures r ==> u.inCategory(SpacingMarkCategory, c) || c == ThaiSaraAm || c == LaoVowelSignAm
  {
    var p := u.graphemeClusterBreak(c);
    && (p.None? || p.value != Extend)
    && (u.inCategory(SpacingMarkCategory, c) || c == ThaiSaraAm || c == LaoVowelSignAm)
  }

  /** The guard shared by GB4 and GB5: CR, LF or `control`. */
  function IsBreakControl(u: UnicodeProperties, c: char32): (r: bool)
    ensures c == CarriageReturn || c == LineFeed ==> r
    ensures u.inCategory(ControlCategory, c) || u.inCategory(LineSeparator, c) || u.inCategory(ParagraphSeparator, c) ==> r
    ensures r ==> c == CarriageReturn || c == LineFeed || IsControl(u, c)
  {
    c == CarriageReturn || c == LineFeed || IsControl(u, c)
  }

  // ---------------------------------------------------------------------------
  // The rules, as data

  /** The pairwise rules the source tests, named as UAX #29 names them. */
  datatype Rule = GB3 | GB4 | GB5 | GB9 | GB9a | GB9b | GB11 | GB12_13

  /** The condition under which the source considers `rule` to apply to the pair (a, b). */
  function Fires(u: UnicodeProperties, rule: Rule, a: char32, b: char32): (r: bool)
    // the Prepend guard is the constant false
    ensures rule == GB9b ==> !r
    // whenever GB3 applies, so does GB4: as written GB3 adds nothing
    ensures rule == GB3 && r ==> IsBreakControl(u, a)
    ensures rule == GB12_13 && r ==> u.isRegionalIndicator(a) && u.isRegionalIndicator(b)
  {
    match rule
    case GB3 => a == CarriageReturn && b == LineFeed
    case GB4 => IsBreakControl(u, a)
    case GB5 => IsBreakControl(u, b)
    case GB9 => IsExtend(u, b) || b == ZeroWidthJoiner
    case GB9a => IsSpacingMark(u, b)
    case GB9b => false  // the Prepend test is commented out; its guard is the constant false
    case GB11 => a == ZeroWidthJoiner && u.extendedPictographic(b)
    case GB12_13 => u.isRegionalIndicator(a) && u.isRegionalIndicator(b)
  }

  /** A rule together with its verdict: `breaks` is the value returned when it applies. */
  datatype RuleEntry = RuleEntry(rule: Rule, breaks: bool)

  /** The rule list as the source writes it: every rule it tests returns false ("do not break"). */
  const SourceRules: seq<RuleEntry> := [
    RuleEntry(GB3, false), RuleEntry(GB4, false), RuleEntry(GB5, false), RuleEntry(GB9, false),
    RuleEntry(GB9a, false), RuleEntry(GB9b, false), RuleEntry(GB11, false), RuleEntry(GB12_13, false)
  ]

  /** The same list with the verdicts of UAX #29: GB4 and GB5 break. */
  const Uax29Rules: seq<RuleEntry> := [
    RuleEntry(GB3, false), RuleEntry(GB4, true), RuleEntry(GB5, true), RuleEntry(GB9, false),
    RuleEntry(GB9a, false), RuleEntry(GB9b, false), RuleEntry(GB11, false), RuleEntry(GB12_13, false)
  ]

  /** The index of the first rule of `rules` that applies to (a, b), or |rules| if none does. */
  function FirstFiring(u: UnicodeProperties, rules: seq<RuleEntry>, a: char32, b: char32): (r: nat)
    ensures r <= |rules|
    ensures forall j :: 0 <= j < r ==> !Fires(u, rules[j].rule, a, b)
    ensures r < |rules| ==> Fires(u, rules[r].rule, a, b)
    decreases |rules|
  {
    if rules == [] then 0
    else if Fires(u, rules[0].rule, a, b) then 0
    else 1 + FirstFiring(u, rules[1..], a, b)
  }

  /** The first applying rule decides; when none applies the answer is "break" (GB999). */
  function Decide(u: UnicodeProperties, rules: seq<RuleEntry>, a: char32, b: char32): (r: bool)
    ensures (forall j :: 0 <= j < |rules| ==> !Fires(u, rules[j].rule, a, b)) ==> r
    ensures forall j :: 0 <= j < |rules| && Fires(u, rules[j].rule, a, b)
                        && (forall k :: 0 <= k < j ==> !Fires(u, rules[k].rule, a, b))
                   ==> r == rules[j].breaks
  {
    var i := FirstFiring(u, rules, a, b);
    if i < |rules| then rules[i].breaks else true
  }

  // ---------------------------------------------------------------------------
  // breakable and nonbreakable, as written

  /**
   * `breakable(a, b)`: true when a and b belong to different grapheme clusters.
   * The rules are tested in the source's order and the first one that applies
   * decides.  GB6 to GB8 are not implemented, GB9b never applies, and GB12/GB13
   * ignore the parity of the regional-indicator run.
   */
  function Breakable(u: UnicodeProperties, a: char32, b: char32): (r: bool)
    ensures a == CarriageReturn && b == LineFeed ==> !r
    ensures IsBreakControl(u, a) || IsBreakControl(u, b) ==> !r
    ensures IsExtend(u, b) || b == ZeroWidthJoiner || IsSpacingMark(u, b) ==> !r
    ensures a == ZeroWidthJoiner && u.extendedPictographic(b) ==> !r
    ensures u.isRegionalIndicator(a) && u.isRegionalIndicator(b) ==> !r
  {
    if a == CarriageReturn && b == LineFeed then false                         // GB3
    else if a == CarriageReturn || a == LineFeed || IsControl(u, a) then false // GB4, as written
    else if b == CarriageReturn || b == LineFeed || IsControl(u, b) then false // GB5, as written
    else if IsExtend(u, b) || b == ZeroWidthJoiner then false                  // GB9
    else if IsSpacingMark(u, b) then false                                     // GB9a
    else if false then false                                                   // GB9b (dead)
    else if a == ZeroWidthJoiner && u.extendedPictographic(b) then false       // GB11
    else if u.isRegionalIndicator(a) && u.isRegionalIndicator(b) then false   // GB12/GB13
    else true                                                                  // GB999
  }

  /** `nonbreakable(a, b)`: the negation of `breakable`, true when some rule joins a and b. */
  function Nonbreakable(u: UnicodeProperties, a: char32, b: char32): (r: bool)
    ensures r <==> exists rule :: Fires(u, rule, a, b)
  {
    BreakableIffNoRuleFires(u, a, b);
    !Breakable(u, a, b)
  }

  /** GB999: `breakable` is true exactly when none of the rules applies. */
  lemma BreakableIffNoRuleFires(u: UnicodeProperties, a: char32, b: char32)
    ensures Breakable(u, a, b) <==> forall rule :: !Fires(u, rule, a, b)
  {
    if !Breakable(u, a, b) {
      var rule :=
        if IsBreakControl(u, a) then GB4
        else if IsBreakControl(u, b) then GB5
        else if IsExtend(u, b) || b == ZeroWidthJoiner then GB9
        else if IsSpacingMark(u, b) then GB9a
        else if a == ZeroWidthJoiner && u.extendedPictographic(b) then GB11
        else GB12_13;
      assert Fires(u, rule, a, b);
    }
  }

  lemma NonbreakableIsNegation(u: UnicodeProperties, a: char32, b: char32)
    ensures Nonbreakable(u, a, b) == !Breakable(u, a, b)
  {
  }

  /** `breakable` is the first-match evaluation of the source's rule list. */
  lemma BreakableFollowsSourceRules(u: UnicodeProperties, a: char32, b: char32)
    ensures Breakable(u, a, b) == Decide(u, SourceRules, a, b)
  {
    assert SourceRules[1].rule == GB4 && SourceRules[2].rule == GB5 && SourceRules[3].rule == GB9;
    assert SourceRules[4].rule == GB9a && SourceRules[6].rule == GB11 && SourceRules[7].rule == GB12_13;
    RuleOrderIrrelevantAsWritten(u, SourceRules, a, b);
  }

  /**
   * As written, every rule returns "do not break", so the order of the rules
   * does not matter, GB3 is subsumed by GB4, and the dead GB9b can be dropped:
   * any list holding the same rules with the same verdict gives the same result.
   */
  lemma RuleOrderIrrelevantAsWritten(u: UnicodeProperties, rules: seq<RuleEntry>, a: char32, b: char32)
    requires forall j :: 0 <= j < |rules| ==> !rules[j].breaks
    requires {GB4, GB5, GB9, GB9a, GB11, GB12_13} <= (set j | 0 <= j < |rules| :: rules[j].rule)
    ensures Decide(u, rules, a, b) == Breakable(u, a, b)
  {
    var i := FirstFiring(u, rules, a, b);
    BreakableIffNoRuleFires(u, a, b);
    if i == |rules| {
      forall rule ensures !Fires(u, rule, a, b) {
        if rule == GB3 {
          assert GB4 in (set j | 0 <= j < |rules| :: rules[j].rule);
          var j :| 0 <= j < |rules| && rules[j].rule == GB4;
        } else if rule != GB9b {
          assert rule in (set j | 0 <= j < |rules| :: rules[j].rule);
          var j :| 0 <= j < |rules| && rules[j].rule == rule;
        }
      }
    } else {
      assert Fires(u, rules[i].rule, a, b);
    }
  }

  /** The Prepend rule never influences the result. */
  lemma PrependNeverDecides(u: UnicodeProperties, a: char32, b: char32)
    ensures Decide(u, SourceRules, a, b) == Decide(u, SourceRules[..5] + SourceRules[6..], a, b)
  {
    var without := SourceRules[..5] + SourceRules[6..];
    assert without == [
      RuleEntry(GB3, false), RuleEntry(GB4, false), RuleEntry(GB5, false), RuleEntry(GB9, false),
      RuleEntry(GB9a, false), RuleEntry(GB11, false), RuleEntry(GB12_13, false)];
    assert (set j | 0 <= j < |without| :: without[j].rule) == {GB3, GB4, GB5, GB9, GB9a, GB11, GB12_13} by {
      assert without[0].rule == GB3 && without[1].rule == GB4 && without[2].rule == GB5;
      assert without[3].rule == GB9 && without[4].rule == GB9a && without[5].rule == GB11;
      assert without[6].rule == GB12_13;
    }
    RuleOrderIrrelevantAsWritten(u, without, a, b);
    BreakableFollowsSourceRules(u, a, b);
  }

  /** As written, the SpacingMark rule adds only U+0E33 and U+0EB3 to what GB9 already joins. */
  lemma SpacingMarkRuleOnlyAddsThaiLaoAm(u: UnicodeProperties, b: char32)
    requires IsSpacingMark(u, b) && !IsExtend(u, b)
    ensures b == ThaiSaraAm || b == LaoVowelSignAm
  {
  }

  // ---------------------------------------------------------------------------
  // The intended GB4/GB5, for comparison

  /**
   * `breakable` with GB4 and GB5 as the comment above them and UAX #29 state
   * them: break after and before CR, LF and controls (except CR LF).
   */
  function BreakableCorrected(u: UnicodeProperties, a: char32, b: char32): (r: bool)
    ensures a == CarriageReturn && b == LineFeed ==> !r
    ensures !(a == CarriageReturn && b == LineFeed) && (IsBreakControl(u, a) || IsBreakControl(u, b)) ==> r
    ensures !IsBreakControl(u, a) && !IsBreakControl(u, b) ==> r == Breakable(u, a, b)
  {
    if a == CarriageReturn && b == LineFeed then false                        // GB3
    else if a == CarriageReturn || a == LineFeed || IsControl(u, a) then true // GB4
    else if b == CarriageReturn || b == LineFeed || IsControl(u, b) then true // GB5
    else if IsExtend(u, b) || b == ZeroWidthJoiner then false                 // GB9
    else if IsSpacingMark(u, b) then false                                    // GB9a
    else if a == ZeroWidthJoiner && u.extendedPictographic(b) then false      // GB11
    else if u.isRegionalIndicator(a) && u.isRegionalIndicator(b) then false  // GB12/GB13
    else true                                                                 // GB999
  }

  /** The corrected predicate is the first-match evaluation of the UAX #29 verdicts. */
  lemma BreakableCorrectedFollowsUax29Rules(u: UnicodeProperties, a: char32, b: char32)
    ensures BreakableCorrected(u, a, b) == Decide(u, Uax29Rules, a, b)
  {
    var i := FirstFiring(u, Uax29Rules, a, b);
    if i == |Uax29Rules| {
      assert !Fires(u, Uax29Rules[1].rule, a, b) && !Fires(u, Uax29Rules[2].rule, a, b);
      assert !Fires(u, Uax29Rules[3].rule, a, b) && !Fires(u, Uax29Rules[4].rule, a, b);
      assert !Fires(u, Uax29Rules[6].rule, a, b) && !Fires(u, Uax29Rules[7].rule, a, b);
    } else if i >= 3 {
      assert !Fires(u, Uax29Rules[1].rule, a, b) && !Fires(u, Uax29Rules[2].rule, a, b);
    }
  }

  /**
   * The discrepancy: after LF and before a character that no rule joins to it,
   * UAX #29 (GB4) breaks, and the code as written does not.
   */
  lemma LineFeedNotBrokenAsWritten(u: UnicodeProperties, b: char32)
    requires !IsBreakControl(u, b)
    ensures !Breakable(u, LineFeed, b)
    ensures Decide(u, Uax29Rules, LineFeed, b)
  {
    BreakableCorrectedFollowsUax29Rules(u, LineFeed, b);
  }

  // ---------------------------------------------------------------------------
  // Regional indicators: the pairwise predicate ignores parity

  /** The number of consecutive regional indicators that end just before position i of s. */
  function RegionalIndicatorRun(u: UnicodeProperties, s: seq<char32>, i: nat): (n: nat)
    requires i <= |s|
    ensures n <= i
    ensures forall j :: i - n <= j < i ==> u.isRegionalIndicator(s[j])
    ensures n < i ==> !u.isRegionalIndicator(s[i - n - 1])
  {
    if i == 0 || !u.isRegionalIndicator(s[i - 1]) then 0
    else 1 + RegionalIndicatorRun(u, s, i - 1)
  }

  /** GB12/GB13 of UAX #29: join two regional indicators when an odd number of them precede the boundary. */
  predicate ParityJoinsRegionalIndicators(u: UnicodeProperties, s: seq<char32>, i: nat)
    requires 0 < i < |s|
  {
    u.isRegionalIndicator(s[i - 1]) && u.isRegionalIndicator(s[i]) && RegionalIndicatorRun(u, s, i) % 2 == 1
  }

  /** Inside a run of regional indicators, `breakable` never breaks, however many precede the pair. */
  lemma {:induction false} RegionalIndicatorRunNeverBreaks(u: UnicodeProperties, s: seq<char32>, i: nat)
    requires 0 < i < |s|
    requires forall j :: 0 <= j < |s| ==> u.isRegionalIndicator(s[j])
    ensures !Breakable(u, s[i - 1], s[i])
    ensures RegionalIndicatorRun(u, s, i) == i
  {
    if i > 1 {
      RegionalIndicatorRunNeverBreaks(u, s, i - 1);
    }
  }

  /**
   * A reference verdict for the boundary before position i of s, an extension
   * of the code and not full UAX #29: the corrected GB3 to GB11 chain of the
   * code (no GB6 to GB8, no GB9b, and GB11 only as the pair ZWJ then
   * pictographic), plus GB12/GB13 joining two regional indicators only after
   * an odd run of them.
   */
  function ReferenceBreakable(u: UnicodeProperties, s: seq<char32>, i: nat): (r: bool)
    requires 0 < i < |s|
    ensures !(u.isRegionalIndicator(s[i - 1]) && u.isRegionalIndicator(s[i])) ==> r == BreakableCorrected(u, s[i - 1], s[i])
    ensures ParityJoinsRegionalIndicators(u, s, i) && !IsBreakControl(u, s[i - 1]) && !IsBreakControl(u, s[i]) ==> !r
    ensures !r ==> !BreakableCorrected(u, s[i - 1], s[i]) || ParityJoinsRegionalIndicators(u, s, i)
  {
    var a, b := s[i - 1], s[i];
    if a == CarriageReturn && b == LineFeed then false                        // GB3
    else if a == CarriageReturn || a == LineFeed || IsControl(u, a) then true // GB4
    else if b == CarriageReturn || b == LineFeed || IsControl(u, b) then true // GB5
    else if IsExtend(u, b) || b == ZeroWidthJoiner then false                 // GB9
    else if IsSpacingMark(u, b) then false                                    // GB9a
    else if a == ZeroWidthJoiner && u.extendedPictographic(b) then false      // GB11
    else if ParityJoinsRegionalIndicators(u, s, i) then false                  // GB12/GB13
    else true                                                                 // GB999
  }

  /**
   * Three regional indicators that no other rule joins (for example U+1F1FA
   * U+1F1F8 U+1F1EB): the reference verdict with GB12/GB13 parity joins the
   * first two and breaks before the third, while the pairwise predicate joins
   * all of them.
   */
  lemma PairwiseDivergesOnRegionalIndicatorTriple(u: UnicodeProperties, s: seq<char32>)
    requires |s| == 3
    requires forall j :: 0 <= j < |s| ==> u.isRegionalIndicator(s[j])
    requires forall j :: 0 <= j < |s| ==>
      !IsBreakControl(u, s[j]) && !IsExtend(u, s[j]) && s[j] != ZeroWidthJoiner && !IsSpacingMark(u, s[j])
    ensures ParityJoinsRegionalIndicators(u, s, 1)
    ensures !ParityJoinsRegionalIndicators(u, s, 2)
    ensures !ReferenceBreakable(u, s, 1)
    ensures ReferenceBreakable(u, s, 2)
    ensures !Breakable(u, s[1], s[2])
  {
    RegionalIndicatorRunNeverBreaks(u, s, 1);
    RegionalIndicatorRunNeverBreaks(u, s, 2);
  }

  // ---------------------------------------------------------------------------
  // The segmenting cursor

  /**
   * The cursor over a caller-owned UTF-32 buffer.  `left` and `right` delimit
   * the current cluster and `end` the input; the source's three pointers are a
   * buffer and three indices into it (a default-constructed cursor has no buffer).
   */
  class GraphemeSegmenter {
    const buffer: array?<char32>
    var left: nat
    var right: nat
    var end: nat

    ghost predicate Valid()
      reads this
    {
      && left <= right <= end
      && (buffer == null ==> end == 0)
      && (buffer != null ==> end <= buffer.Length)
    }

    /** Construction from a pair of bounds; the constructor then applies `++`. */
    constructor Range(buf: array<char32>, begin: nat, last: nat)
      requires begin <= last <= buf.Length
      ensures Valid()
      ensures buffer == buf && left == begin && right == begin && end == last
      ensures Current() == []
      ensures Empty() <==> begin == last
    {
      buffer := buf;
      left, right, end := begin, begin, last;
      new;
      Next();
    }

    /** Construction from a view of the whole buffer. */
    constructor View(buf: array<char32>)
      ensures Valid()
      ensures buffer == buf && left == 0 && right == 0 && end == buf.Length
      ensures Current() == []
      ensures Empty() <==> buf.Length == 0
    {
      buffer := buf;
      left, right, end := 0, 0, buf.Length;
      new;
      Next();
    }

    /** The default cursor, over no buffer at all; it is empty. */
    constructor Default()
      ensures Valid()
      ensures buffer == null && left == 0 && right == 0 && end == 0
      ensures Current() == [] && Empty()
    {
      buffer := null;
      left, right, end := 0, 0, 0;
      new;
      Next();
    }

    /** `operator++`, as written a stub: it collapses the current cluster onto `left`. */
    method Next()
      requires Valid()
      modifies this
      ensures Valid()
      ensures left == old(left) && right == old(left) && end == old(end)
    {
      right := left;
    }

    /** `operator*`: the codepoints from `left` up to `right`. */
    function Current(): (r: seq<char32>)
      requires Valid()
      reads this, buffer
      ensures |r| == right - left
      ensures buffer != null ==> forall i :: 0 <= i < |r| ==> r[i] == buffer[left + i]
    {
      if buffer == null then [] else buffer[left..right]
    }

    /** `empty()`: the current cluster ends at the end of the input; a cursor without a buffer always is. */
    function Empty(): (r: bool)
      reads this
      ensures Valid() && buffer == null ==> r
    {
      right == end
    }

    /** `operator==`: both cursors are empty, or they delimit the same cluster of the same buffer. */
    function Equals(other: GraphemeSegmenter): (r: bool)
      reads this, other
      ensures Empty() && other.Empty() ==> r
      ensures !(Empty() && other.Empty()) && !(buffer == other.buffer && left == other.left && right == other.right) ==> !r
      ensures buffer == other.buffer && left == other.left && right == other.right ==> r
    {
      (Empty() && other.Empty())
      || (buffer == other.buffer && left == other.left && right == other.right)
    }
  }

  /** A client of the cursor: with the stub `++` the cursor never moves past its start. */
  method CursorNeverAdvances(buf: array<char32>)
    requires buf.Length > 0
  {
    var g := new GraphemeSegmenter.View(buf);
    assert !g.Empty() && g.Current() == [];
    g.Next();
    assert g.left == 0 && g.right == 0 && !g.Empty();
    var h := new GraphemeSegmenter.Default();
    var k := new GraphemeSegmenter.Default();
    assert h.Equals(k);
  }
}
