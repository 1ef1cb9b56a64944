/**
 * Model of terminal::MatchModes: a tri-state flag set used to select
 * context-dependent input bindings.  Each flag is either required enabled,
 * required disabled, or left to match anything; the set is kept in two
 * 8-bit masks, and its formatter prints the flags in a fixed order.
 */
module MatchModeFlags {

  /** `MatchModes::Flag`; every value but Default is a single bit. */
  datatype Flag = Default | AlternateScreen | AppCursor | AppKeypad | Insert | Select | Search | Trace

  /** The bit of a flag: zero for Default, otherwise exactly one of the low seven bits. */
  function Bits(f: Flag): (r: bv8)
    ensures f == Default <==> r == 0
    ensures r & (r - 1) == 0
    ensures r & 0x80 == 0
  {
    match f
    case Default => 0x00
    case AlternateScreen => 0x01
    case AppCursor => 0x02
    case AppKeypad => 0x04
    case Insert => 0x08
    case Select => 0x10
    case Search => 0x20
    case Trace => 0x40
  }

  datatype Status = Any | Enabled | Disabled

  /** The status of the bits b under the masks e (enabled) and d (disabled). */
  function StatusOf(e: bv8, d: bv8, b: bv8): (r: Status)
    ensures r == Enabled <==> e & b != 0
    ensures r == Disabled <==> e & b == 0 && d & b != 0
    ensures r == Any <==> (e | d) & b == 0
  {
    if e & b != 0 then Enabled
    else if d & b != 0 then Disabled
    else Any
  }

  /** `enable`, `disable` and `clear` of f leave the status of every flag g disjoint from f as it was. */
  lemma UpdatesKeepOtherFlags(e: bv8, d: bv8, f: Flag, g: Flag)
    requires Bits(g) & Bits(f) == 0
    ensures StatusOf(e | Bits(f), d & !Bits(f), Bits(g)) == StatusOf(e, d, Bits(g))
    ensures StatusOf(e & !Bits(f), d | Bits(f), Bits(g)) == StatusOf(e, d, Bits(g))
    ensures StatusOf(e & !Bits(f), d & !Bits(f), Bits(g)) == StatusOf(e, d, Bits(g))
  {
  }

  class MatchModes {
    var enabled: bv8
    var disabled: bv8

    /** No flag is both required enabled and required disabled. */
    predicate Disjoint()
      reads this
    {
      enabled & disabled == 0
    }

    /** The default constructor: every flag matches anything. */
    constructor ()
      ensures enabled == 0 && disabled == 0
      ensures Disjoint() && !AnyConstrained()
    {
      enabled, disabled := 0, 0;
    }

    /** The two-mask constructor; it does not keep the masks disjoint. */
    constructor FromMasks(e: bv8, d: bv8)
      ensures enabled == e && disabled == d
    {
      enabled, disabled := e, d;
    }

    /** `status`: Enabled if the flag is in the enabled mask, else Disabled if in the disabled mask, else Any. */
    function Status(f: Flag): (r: Status)
      reads this
      ensures r == Enabled <==> enabled & Bits(f) != 0
      ensures r == Disabled <==> enabled & Bits(f) == 0 && disabled & Bits(f) != 0
      ensures r == Any <==> enabled & Bits(f) == 0 && disabled & Bits(f) == 0
    {
      StatusOf(enabled, disabled, Bits(f))
    }

    /** `has_value`: the flag is constrained one way or the other. */
    function HasValue(f: Flag): (r: bool)
      reads this
      ensures r <==> Status(f) != Any
    {
      enabled & Bits(f) != 0 || disabled & Bits(f) != 0
    }

    /** `enable`: require the flag enabled, dropping it from the disabled mask. */
    method Enable(f: Flag)
      modifies this
      ensures enabled == old(enabled) | Bits(f)
      ensures disabled == old(disabled) & !Bits(f)
      ensures f != Default ==> HasValue(f) && Status(f) == Enabled
      ensures old(Disjoint()) ==> Disjoint()
    {
      enabled, disabled := enabled | Bits(f), disabled & !Bits(f);
    }

    /** `disable`: require the flag disabled, dropping it from the enabled mask. */
    method Disable(f: Flag)
      modifies this
      ensures enabled == old(enabled) & !Bits(f)
      ensures disabled == old(disabled) | Bits(f)
      ensures f != Default ==> HasValue(f) && Status(f) == Disabled
      ensures old(Disjoint()) ==> Disjoint()
    {
      enabled, disabled := enabled & !Bits(f), disabled | Bits(f);
    }

    /** `clear`: let the flag match anything again. */
    method Clear(f: Flag)
      modifies this
      ensures enabled == old(enabled) & !Bits(f)
      ensures disabled == old(disabled) & !Bits(f)
      ensures !HasValue(f) && Status(f) == Any
      ensures old(Disjoint()) ==> Disjoint()
    {
      enabled, disabled := enabled & !Bits(f), disabled & !Bits(f);
    }

    /** `reset`: every flag matches anything. */
    method Reset()
      modifies this
      ensures enabled == 0 && disabled == 0
      ensures !AnyConstrained() && Hashcode() == 0 && Disjoint()
      ensures forall g :: Status(g) == Any
    {
      enabled, disabled := 0, 0;
    }

    /** `any`: some bit of either mask is set (also bits that no flag names). */
    function AnyConstrained(): (r: bool)
      reads this
      ensures r <==> Hashcode() != 0
      ensures (exists f :: HasValue(f)) ==> r
    {
      enabled != 0 || disabled != 0
    }

    /** `hashcode`: the enabled mask in the high byte, the disabled mask in the low byte. */
    function Hashcode(): (r: bv16)
      reads this
      ensures (r >> 8) as bv8 == enabled
      ensures (r & 0xFF) as bv8 == disabled
    {
      (enabled as bv16 << 8) | disabled as bv16
    }

    /** `operator==`: equal hash codes, which is equality of both masks. */
    function Equals(other: MatchModes): (r: bool)
      reads this, other
      ensures r <==> enabled == other.enabled && disabled == other.disabled
    {
      Hashcode() == other.Hashcode()
    }

    /** `operator!=`. */
    function NotEquals(other: MatchModes): (r: bool)
      reads this, other
      ensures r <==> enabled != other.enabled || disabled != other.disabled
    {
      !Equals(other)
    }
  }

  // ---------------------------------------------------------------------------
  // The formatter

  /** The flags the formatter prints, in its order, with their printed names. */
  const FormatOrder: seq<(Flag, string)> := [
    (AppCursor, "AppCursor"), (AppKeypad, "AppKeypad"), (AlternateScreen, "AltScreen"),
    (Insert, "Insert"), (Select, "Select"), (Search, "Search"), (Trace, "Trace")
  ]

  /** The formatter's order names every flag but Default exactly once, each with a non-empty name. */
  lemma FormatOrderCoversFlags()
    ensures (set i | 0 <= i < |FormatOrder| :: FormatOrder[i].0)
      == {AlternateScreen, AppCursor, AppKeypad, Insert, Select, Search, Trace}
    ensures forall i :: 0 <= i < |FormatOrder| ==> |FormatOrder[i].1| >= 5
    ensures forall i, j :: 0 <= i < j < |FormatOrder| ==> FormatOrder[i].0 != FormatOrder[j].0
  {
    assert FormatOrder[0].0 == AppCursor && FormatOrder[1].0 == AppKeypad && FormatOrder[2].0 == AlternateScreen;
    assert FormatOrder[3].0 == Insert && FormatOrder[4].0 == Select && FormatOrder[5].0 == Search;
    assert FormatOrder[6].0 == Trace;
  }

  /** The status of every flag under the masks e (enabled) and d (disabled). */
  function StatusMap(e: bv8, d: bv8): Flag -> Status
  {
    f => StatusOf(e, d, Bits(f))
  }

  /** How one constrained flag is printed: its name, after `~` when it is required disabled. */
  function Label(st: Flag -> Status, f: Flag, text: string): (r: string)
    ensures |r| >= |text|
    ensures r == text || r == "~" + text
    ensures r == "~" + text <==> st(f) == Disabled
  {
    if st(f) == Disabled then "~" + text else text
  }

  /** The labels of the constrained flags of `order`, in that order. */
  function Parts(st: Flag -> Status, order: seq<(Flag, string)>): seq<string>
  {
    if order == [] then []
    else
      var last := order[|order| - 1];
      Parts(st, order[..|order| - 1]) + (if st(last.0) == Any then [] else [Label(st, last.0, last.1)])
  }

  /** The parts separated by `|`. */
  function Join(parts: seq<string>): string
  {
    if |parts| == 0 then ""
    else if |parts| == 1 then parts[0]
    else Join(parts[..|parts| - 1]) + "|" + parts[|parts| - 1]
  }

  /** What the formatter prints when the flags have the statuses st. */
  function RenderedWith(st: Flag -> Status): string
  {
    var parts := Parts(st, FormatOrder);
    if parts == [] then "Any" else Join(parts)
  }

  /** What the formatter prints for the masks e (enabled) and d (disabled). */
  function Rendered(e: bv8, d: bv8): string
  {
    RenderedWith(StatusMap(e, d))
  }

  lemma {:induction false} JoinEmptyIffNoParts(parts: seq<string>)
    requires forall i :: 0 <= i < |parts| ==> parts[i] != ""
    ensures Join(parts) == "" <==> parts == []
    ensures parts != [] ==> |Join(parts)| >= |parts[0]|
  {
    if |parts| > 1 {
      JoinEmptyIffNoParts(parts[..|parts| - 1]);
    }
  }

  /** Every part is at least as long as the shortest name of `order`. */
  lemma {:induction false} PartsLongEnough(st: Flag -> Status, order: seq<(Flag, string)>, minLength: nat)
    requires forall i :: 0 <= i < |order| ==> |order[i].1| >= minLength
    ensures forall x :: x in Parts(st, order) ==> |x| >= minLength
  {
    if order != [] {
      PartsLongEnough(st, order[..|order| - 1], minLength);
    }
  }

  /** Every part is the label of a constrained flag of `order`. */
  lemma {:induction false} PartsAreConstrainedLabels(st: Flag -> Status, order: seq<(Flag, string)>)
    ensures forall x :: x in Parts(st, order) ==>
      exists i :: 0 <= i < |order| && st(order[i].0) != Any && x == Label(st, order[i].0, order[i].1)
  {
    if order != [] {
      var init := order[..|order| - 1];
      PartsAreConstrainedLabels(st, init);
      assert forall i :: 0 <= i < |init| ==> init[i] == order[i];
    }
  }

  /** The label of every constrained flag of `order` is a part; there are none exactly when no flag is constrained. */
  lemma {:induction false} ConstrainedLabelsArePartsOf(st: Flag -> Status, order: seq<(Flag, string)>)
    ensures forall i :: 0 <= i < |order| && st(order[i].0) != Any ==>
      Label(st, order[i].0, order[i].1) in Parts(st, order)
    ensures Parts(st, order) == [] <==> forall i :: 0 <= i < |order| ==> st(order[i].0) == Any
  {
    if order != [] {
      var init := order[..|order| - 1];
      ConstrainedLabelsArePartsOf(st, init);
      assert forall i :: 0 <= i < |init| ==> init[i] == order[i];
    }
  }

  /** The formatter prints "Any" exactly when none of the seven flags is constrained, and otherwise the joined labels. */
  lemma RenderedAnyIffUnconstrained(st: Flag -> Status)
    ensures RenderedWith(st) == "Any" <==> forall i :: 0 <= i < |FormatOrder| ==> st(FormatOrder[i].0) == Any
    ensures RenderedWith(st) != "Any" ==> RenderedWith(st) == Join(Parts(st, FormatOrder))
  {
    var parts := Parts(st, FormatOrder);
    ConstrainedLabelsArePartsOf(st, FormatOrder);
    if parts != [] {
      PartsLongEnough(st, FormatOrder, 5);
      assert parts[0] in parts;
      JoinEmptyIffNoParts(parts);
    }
  }

  /** The formatter prints the labels of exactly the constrained flags. */
  lemma RenderedFlags(st: Flag -> Status)
    ensures forall x :: x in Parts(st, FormatOrder) ==>
      exists i :: 0 <= i < |FormatOrder| && st(FormatOrder[i].0) != Any
        && x == Label(st, FormatOrder[i].0, FormatOrder[i].1)
    ensures forall i :: 0 <= i < |FormatOrder| && st(FormatOrder[i].0) != Any ==>
      Label(st, FormatOrder[i].0, FormatOrder[i].1) in Parts(st, FormatOrder)
  {
    PartsAreConstrainedLabels(st, FormatOrder);
    ConstrainedLabelsArePartsOf(st, FormatOrder);
  }

  /** The `advance` lambda: append the label of a constrained flag, after `|` unless it is the first. */
  method Advance(m: MatchModes, s: string, f: Flag, text: string) returns (next: string)
    ensures Advanced(StatusMap(m.enabled, m.disabled), (f, text), s, next)
  {
    next := s;
    var status := m.Status(f);
    if status == Any {
      return;
    }
    if next != "" {
      next := next + "|";
    }
    if status == Disabled {
      next := next + "~";
    }
    next := next + text;
  }

  /** Parts of a prefix one flag longer: the label of that flag is appended exactly when it is constrained. */
  lemma PartsSnoc(st: Flag -> Status, order: seq<(Flag, string)>, k: nat)
    requires k < |order|
    ensures Parts(st, order[..k + 1]) ==
      Parts(st, order[..k]) + (if st(order[k].0) == Any then [] else [Label(st, order[k].0, order[k].1)])
  {
    var prefix := order[..k + 1];
    assert prefix[..k] == order[..k];
    assert prefix[k] == order[k];
  }

  /** Joining one more part appends it after `|`, unless it is the first. */
  lemma JoinSnoc(parts: seq<string>, x: string)
    ensures Join(parts + [x]) == (if parts == [] then x else Join(parts) + "|" + x)
  {
    assert (parts + [x])[..|parts|] == parts;
  }

  /** One step of the formatter: the string for the first k + 1 flags of `order` from that for the first k. */
  lemma FormatStep(st: Flag -> Status, order: seq<(Flag, string)>, k: nat, s: string, next: string)
    requires k < |order|
    requires forall i :: 0 <= i < |order| ==> |order[i].1| >= 1
    requires s == Join(Parts(st, order[..k]))
    requires Advanced(st, order[k], s, next)
    ensures next == Join(Parts(st, order[..k + 1]))
  {
    var parts := Parts(st, order[..k]);
    PartsSnoc(st, order, k);
    if st(order[k].0) != Any {
      PartsLongEnough(st, order[..k], 1);
      JoinEmptyIffNoParts(parts);
      JoinSnoc(parts, Label(st, order[k].0, order[k].1));
    } else {
      assert parts + [] == parts;
    }
  }

  /** An `advance` step on a string: what the formatter appends for the flag of `entry`. */
  predicate Advanced(st: Flag -> Status, entry: (Flag, string), s: string, next: string)
  {
    if st(entry.0) == Any then next == s
    else next == (if s == "" then "" else s + "|") + Label(st, entry.0, entry.1)
  }

  /** A chain of `advance` steps from the empty string builds the joined parts of each prefix of `order`. */
  lemma {:induction false} AdvanceChain(st: Flag -> Status, order: seq<(Flag, string)>, ss: seq<string>, k: nat)
    requires |ss| == |order| + 1 && ss[0] == ""
    requires forall i :: 0 <= i < |order| ==> |order[i].1| >= 1
    requires forall i :: 0 <= i < |order| ==> Advanced(st, order[i], ss[i], ss[i + 1])
    requires k <= |order|
    ensures ss[k] == Join(Parts(st, order[..k]))
  {
    if k == 0 {
      assert order[..0] == [];
    } else {
      AdvanceChain(st, order, ss, k - 1);
      FormatStep(st, order, k - 1, ss[k - 1], ss[k]);
    }
  }

  /** The chain over all seven flags, with "Any" in place of the empty string, is the rendered text. */
  lemma ChainRendered(st: Flag -> Status, s: string)
    requires s == Join(Parts(st, FormatOrder[..7]))
    ensures (if s == "" then "Any" else s) == RenderedWith(st)
  {
    assert FormatOrder[..7] == FormatOrder;
    PartsLongEnough(st, FormatOrder, 1);
    JoinEmptyIffNoParts(Parts(st, FormatOrder));
  }

  /** The seven `advance` steps of the formatter, with "Any" in place of the empty string, give the rendered text. */
  lemma FormatChain(st: Flag -> Status, s1: string, s2: string, s3: string, s4: string, s5: string, s6: string, s7: string)
    requires Advanced(st, (AppCursor, "AppCursor"), "", s1) && Advanced(st, (AppKeypad, "AppKeypad"), s1, s2)
    requires Advanced(st, (AlternateScreen, "AltScreen"), s2, s3) && Advanced(st, (Insert, "Insert"), s3, s4)
    requires Advanced(st, (Select, "Select"), s4, s5) && Advanced(st, (Search, "Search"), s5, s6)
    requires Advanced(st, (Trace, "Trace"), s6, s7)
    ensures (if s7 == "" then "Any" else s7) == RenderedWith(st)
  {
    var ss := ["", s1, s2, s3, s4, s5, s6, s7];
    assert forall i :: 0 <= i < |FormatOrder| ==> |FormatOrder[i].1| >= 1;
    assert forall i :: 0 <= i < |FormatOrder| ==> Advanced(st, FormatOrder[i], ss[i], ss[i + 1]);
    AdvanceChain(st, FormatOrder, ss, 7);
    ChainRendered(st, ss[7]);
  }

  /** `formatter<MatchModes>::format`: the string built by the seven `advance` calls, or "Any". */
  method Format(m: MatchModes) returns (s: string)
    ensures s == Rendered(m.enabled, m.disabled)
  {
    ghost var st := StatusMap(m.enabled, m.disabled);
    var s1 := Advance(m, "", AppCursor, "AppCursor");
    var s2 := Advance(m, s1, AppKeypad, "AppKeypad");
    var s3 := Advance(m, s2, AlternateScreen, "AltScreen");
    var s4 := Advance(m, s3, Insert, "Insert");
    var s5 := Advance(m, s4, Select, "Select");
    var s6 := Advance(m, s5, Search, "Search");
    var s7 := Advance(m, s6, Trace, "Trace");
    FormatChain(st, s1, s2, s3, s4, s5, s6, s7);
    s := if s7 == "" then "Any" else s7;
  }

  /** A client: from the default value, enable, disable and clear keep the masks disjoint; the two-mask constructor need not. */
  method DisjointnessClient()
  {
    var m := new MatchModes();
    m.Enable(AppCursor);
    m.Disable(AppCursor);
    m.Enable(Insert);
    m.Clear(Insert);
    assert m.Disjoint() && m.Status(AppCursor) == Disabled && m.Status(Insert) == Any;
    var n := new MatchModes.FromMasks(0x02, 0x02);
    assert !n.Disjoint() && n.Status(AppCursor) == Enabled;
  }
}
