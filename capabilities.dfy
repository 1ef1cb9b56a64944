/**
 * The terminal's static capability database: boolean, numeric and string
 * capabilities in constant tables, looked up by termcap code or by name, and
 * rendered as a terminfo source text sorted by name.
 */
module Capabilities {

  import opened Wrappers

  /** A two-character termcap code; the code "" stands for an entry without one. */
  datatype Code = Code(tcap: string)

  const Undefined: Code := Code("")

  /** One capability: its termcap code, its terminfo name and its value. */
  datatype Cap<T> = Cap(code: Code, name: string, value: T)

  /** The three tables of the database. Numeric values are C++ `int`s. */
  datatype Database = Database(booleans: seq<Cap<bool>>, numerics: seq<Cap<int>>, strings: seq<Cap<string>>)

  // ---------------------------------------------------------------------------
  // Names in lexicographic order, as `std::string_view` compares them

  /** a sorts strictly before b: at the first differing character, or as a proper prefix. */
  predicate StrLess(a: string, b: string)
  {
    if |a| == 0 then |b| > 0
    else if |b| == 0 then false
    else if a[0] != b[0] then a[0] < b[0]
    else StrLess(a[1..], b[1..])
  }

  predicate StrLe(a: string, b: string)
  {
    StrLess(a, b) || a == b
  }

  lemma {:induction false} StrLessIrreflexive(a: string)
    ensures !StrLess(a, a)
  {
    if |a| > 0 {
      StrLessIrreflexive(a[1..]);
    }
  }

  lemma {:induction false} StrLessTransitive(a: string, b: string, c: string)
    requires StrLess(a, b) && StrLess(b, c)
    ensures StrLess(a, c)
  {
    if |a| > 0 && |b| > 0 && |c| > 0 && a[0] == b[0] && b[0] == c[0] {
      StrLessTransitive(a[1..], b[1..], c[1..]);
    }
  }

  /** Any two different strings are ordered one way or the other, and never both. */
  lemma {:induction false} StrLessTrichotomy(a: string, b: string)
    ensures a == b || StrLess(a, b) || StrLess(b, a)
    ensures !(StrLess(a, b) && StrLess(b, a))
  {
    if |a| > 0 && |b| > 0 && a[0] == b[0] {
      StrLessTrichotomy(a[1..], b[1..]);
      if a[1..] == b[1..] {
        assert a == [a[0]] + a[1..] && b == [b[0]] + b[1..];
      }
    }
  }

  // ---------------------------------------------------------------------------
  // Comparison operators of Cap: all of them look at the name only

  function CapLess<T>(a: Cap<T>, b: Cap<T>): (r: bool)
    ensures r ==> a.name != b.name
    ensures r ==> !StrLess(b.name, a.name)
  {
    StrLessIrreflexive(a.name);
    StrLessTrichotomy(a.name, b.name);
    StrLess(a.name, b.name)
  }

  function CapGreater<T>(a: Cap<T>, b: Cap<T>): (r: bool)
    ensures r <==> CapLess(b, a)
  {
    StrLess(b.name, a.name)
  }

  function CapLessEq<T>(a: Cap<T>, b: Cap<T>): (r: bool)
    ensures r <==> !CapGreater(a, b)
  {
    StrLessTrichotomy(a.name, b.name);
    StrLessIrreflexive(a.name);
    StrLe(a.name, b.name)
  }

  function CapGreaterEq<T>(a: Cap<T>, b: Cap<T>): (r: bool)
    ensures r <==> !CapLess(a, b)
  {
    StrLessTrichotomy(a.name, b.name);
    StrLessIrreflexive(a.name);
    StrLe(b.name, a.name)
  }

  /** `operator==`: equal names, whatever the codes and values. */
  function CapEq<T>(a: Cap<T>, b: Cap<T>): (r: bool)
    ensures r <==> !CapLess(a, b) && !CapGreater(a, b)
    ensures r <==> a == b || a.name == b.name
  {
    StrLessTrichotomy(a.name, b.name);
    a.name == b.name
  }

  /** `operator!=` as written: it compares the names for equality, like `operator==`. */
  function CapNe<T>(a: Cap<T>, b: Cap<T>): (r: bool)
    ensures r <==> CapEq(a, b)
  {
    a.name == b.name
  }

  /** `operator!=` as evidently intended: the negation of `operator==`. */
  function CapNeCorrected<T>(a: Cap<T>, b: Cap<T>): (r: bool)
    ensures r <==> !CapEq(a, b)
    ensures r <==> CapLess(a, b) || CapGreater(a, b)
  {
    a.name != b.name
  }

  /** Exactly one of less, equal and greater holds for any two entries. */
  lemma CapOrderTrichotomy<T>(a: Cap<T>, b: Cap<T>)
    ensures CapLess(a, b) || CapEq(a, b) || CapGreater(a, b)
    ensures !(CapLess(a, b) && CapGreater(a, b))
  {
    StrLessTrichotomy(a.name, b.name);
  }

  /** The as-written `!=` holds of an entry and itself, where `!=` should be false. */
  lemma CapNeHoldsOfEqualEntries()
    ensures CapNe(Cap(Code("am"), "am", true), Cap(Code("am"), "am", true))
    ensures !CapNeCorrected(Cap(Code("am"), "am", true), Cap(Code("am"), "am", true))
  {
  }

  // ---------------------------------------------------------------------------
  // First-match searches

  /** Index of the first entry with the given code; |table| when there is none. */
  function IndexOfCode<T>(table: seq<Cap<T>>, key: Code): (i: nat)
    ensures i <= |table|
    ensures i < |table| ==> table[i].code == key
    ensures forall j :: 0 <= j < i ==> table[j].code != key
  {
    if table == [] then 0
    else if table[0].code == key then 0
    else 1 + IndexOfCode(table[1..], key)
  }

  /** An entry matches a string key when its name or its code equals the key. */
  function KeyMatches<T>(cap: Cap<T>, key: string, codeIs: (Code, string) -> bool): (r: bool)
    ensures cap.name == key ==> r
    ensures codeIs(cap.code, key) ==> r
    ensures r ==> cap.name == key || codeIs(cap.code, key)
  {
    cap.name == key || codeIs(cap.code, key)
  }

  /** Index of the first entry the string key matches; |table| when there is none. */
  function IndexOfKey<T>(table: seq<Cap<T>>, key: string, codeIs: (Code, string) -> bool): (i: nat)
    ensures i <= |table|
    ensures i < |table| ==> KeyMatches(table[i], key, codeIs)
    ensures forall j :: 0 <= j < i ==> !KeyMatches(table[j], key, codeIs)
  {
    if table == [] then 0
    else if KeyMatches(table[0], key, codeIs) then 0
    else 1 + IndexOfKey(table[1..], key, codeIs)
  }

  /** The value of the first entry with the code, or the fallback. */
  function ValueByCode<T>(table: seq<Cap<T>>, key: Code, fallback: T): (r: T)
    ensures (forall j :: 0 <= j < |table| ==> table[j].code != key) ==> r == fallback
    ensures forall j :: (0 <= j < |table| && table[j].code == key && (forall k :: 0 <= k < j ==> table[k].code != key))
                  ==> r == table[j].value
  {
    var i := IndexOfCode(table, key);
    if i < |table| then table[i].value else fallback
  }

  /** The value of the first entry the string key matches, or the fallback. */
  function ValueByKey<T>(table: seq<Cap<T>>, key: string, codeIs: (Code, string) -> bool, fallback: T): (r: T)
    ensures (forall j :: 0 <= j < |table| ==> !KeyMatches(table[j], key, codeIs)) ==> r == fallback
    ensures forall j :: (0 <= j < |table| && KeyMatches(table[j], key, codeIs)
                         && (forall k :: 0 <= k < j ==> !KeyMatches(table[k], key, codeIs)))
                  ==> r == table[j].value
  {
    var i := IndexOfKey(table, key, codeIs);
    if i < |table| then table[i].value else fallback
  }

  /** The loop shared by the three lookups by code: return the first match's value, else the fallback. */
  method LookupByCode<T>(table: seq<Cap<T>>, key: Code, fallback: T) returns (r: T)
    ensures r == ValueByCode(table, key, fallback)
  {
    for i := 0 to |table|
      invariant forall j :: 0 <= j < i ==> table[j].code != key
    {
      if table[i].code == key {
        return table[i].value;
      }
    }
    return fallback;
  }

  /** The loop shared by the three lookups by string key. */
  method LookupByKey<T>(table: seq<Cap<T>>, key: string, codeIs: (Code, string) -> bool, fallback: T) returns (r: T)
    ensures r == ValueByKey(table, key, codeIs, fallback)
  {
    for i := 0 to |table|
      invariant forall j :: 0 <= j < i ==> !KeyMatches(table[j], key, codeIs)
    {
      var cap := table[i];
      if cap.name == key || codeIs(cap.code, key) {
        return cap.value;
      }
    }
    return fallback;
  }

  /** The C++ conversion of an `int` to `unsigned` (32 bits): reduction modulo 2^32. */
  function ToUnsigned(v: int): (r: nat)
    ensures r < 0x1_0000_0000
    ensures 0 <= v < 0x1_0000_0000 ==> r == v
    ensures -0x1_0000_0000 <= v < 0 ==> r == v + 0x1_0000_0000
  {
    v % 0x1_0000_0000
  }

  /** `(unsigned)-1`, what the numeric lookups return when nothing matches. */
  const NoNumber: nat := 0xFFFF_FFFF

  method BooleanCapabilityByCode(db: Database, key: Code) returns (r: bool)
    ensures r == ValueByCode(db.booleans, key, false)
  {
    r := LookupByCode(db.booleans, key, false);
  }

  method NumericCapabilityByCode(db: Database, key: Code) returns (r: nat)
    ensures r == ToUnsigned(ValueByCode(db.numerics, key, -1))
    ensures ToUnsigned(-1) == NoNumber
  {
    var v := LookupByCode(db.numerics, key, -1);
    r := ToUnsigned(v);
  }

  method StringCapabilityByCode(db: Database, key: Code) returns (r: string)
    ensures r == ValueByCode(db.strings, key, "")
  {
    r := LookupByCode(db.strings, key, "");
  }

  method BooleanCapabilityByName(db: Database, key: string, codeIs: (Code, string) -> bool) returns (r: bool)
    ensures r == ValueByKey(db.booleans, key, codeIs, false)
  {
    r := LookupByKey(db.booleans, key, codeIs, false);
  }

  method NumericCapabilityByName(db: Database, key: string, codeIs: (Code, string) -> bool) returns (r: nat)
    ensures r == ToUnsigned(ValueByKey(db.numerics, key, codeIs, -1))
  {
    var v := LookupByKey(db.numerics, key, codeIs, -1);
    r := ToUnsigned(v);
  }

  method StringCapabilityByName(db: Database, key: string, codeIs: (Code, string) -> bool) returns (r: string)
    ensures r == ValueByKey(db.strings, key, codeIs, "")
  {
    r := LookupByKey(db.strings, key, codeIs, "");
  }

  /** A numeric lookup that finds nothing yields 2^32 - 1; one that finds a value in range yields it. */
  lemma NumericFallback(table: seq<Cap<int>>, key: Code)
    ensures (forall j :: 0 <= j < |table| ==> table[j].code != key) ==> ToUnsigned(ValueByCode(table, key, -1)) == NoNumber
    ensures IndexOfCode(table, key) < |table| && 0 <= table[IndexOfCode(table, key)].value < 0x1_0000_0000
      ==> ToUnsigned(ValueByCode(table, key, -1)) == table[IndexOfCode(table, key)].value
  {
  }

  // ---------------------------------------------------------------------------
  // codeFromName

  /** The (name, code) pairs of a table, in table order. */
  function NameCodes<T>(table: seq<Cap<T>>): (r: seq<(string, Code)>)
    ensures |r| == |table|
    ensures forall i :: 0 <= i < |table| ==> r[i] == (table[i].name, table[i].code)
  {
    seq(|table|, i requires 0 <= i < |table| => (table[i].name, table[i].code))
  }

  /** The pairs `codeFromName` walks: the numeric table, then the boolean one, then the string one. */
  function SearchOrder(db: Database): seq<(string, Code)>
  {
    NameCodes(db.numerics) + NameCodes(db.booleans) + NameCodes(db.strings)
  }

  /** Index of the first pair with the given name; |pairs| when there is none. */
  function IndexOfName(pairs: seq<(string, Code)>, name: string): (i: nat)
    ensures i <= |pairs|
    ensures i < |pairs| ==> pairs[i].0 == name
    ensures forall j :: 0 <= j < i ==> pairs[j].0 != name
  {
    if pairs == [] then 0
    else if pairs[0].0 == name then 0
    else 1 + IndexOfName(pairs[1..], name)
  }

  /** The code of the first pair with the name, if any. */
  function CodeOfName(pairs: seq<(string, Code)>, name: string): Option<Code>
  {
    var i := IndexOfName(pairs, name);
    if i < |pairs| then Some(pairs[i].1) else None
  }

  method CodeFromName(db: Database, name: string) returns (r: Option<Code>)
    ensures r == CodeOfName(SearchOrder(db), name)
  {
    var pairs := SearchOrder(db);
    for i := 0 to |pairs|
      invariant forall j :: 0 <= j < i ==> pairs[j].0 != name
    {
      if pairs[i].0 == name {
        return Some(pairs[i].1);
      }
    }
    return None;
  }

  /** The first match in a table determines the search over any sequence that starts with that table. */
  lemma {:induction false} IndexOfNameInPrefix(p: seq<(string, Code)>, q: seq<(string, Code)>, name: string)
    ensures IndexOfName(p, name) < |p| ==> IndexOfName(p + q, name) == IndexOfName(p, name)
    ensures IndexOfName(p, name) == |p| ==> IndexOfName(p + q, name) == |p| + IndexOfName(q, name)
  {
    if p != [] {
      assert (p + q)[1..] == p[1..] + q;
      IndexOfNameInPrefix(p[1..], q, name);
    } else {
      assert p + q == q;
    }
  }

  /** Searching p + q finds p's match when p has one, and q's otherwise. */
  lemma CodeOfNameConcat(p: seq<(string, Code)>, q: seq<(string, Code)>, name: string)
    ensures CodeOfName(p + q, name) == if CodeOfName(p, name).Some? then CodeOfName(p, name) else CodeOfName(q, name)
  {
    IndexOfNameInPrefix(p, q, name);
    var i := IndexOfName(p, name);
    if i < |p| {
      assert (p + q)[i] == p[i];
    } else if IndexOfName(q, name) < |q| {
      assert (p + q)[|p| + IndexOfName(q, name)] == q[IndexOfName(q, name)];
    }
  }

  /** The code of the first entry of one table with the name, if any. */
  function FirstCodeByName<T>(table: seq<Cap<T>>, name: string): (r: Option<Code>)
    ensures r == CodeOfName(NameCodes(table), name)
    ensures r == None <==> forall j :: 0 <= j < |table| ==> table[j].name != name
  {
    IndexOfKeyNameIsIndexOfName(table, name);
    var i := IndexOfKeyName(table, name);
    if i < |table| then Some(table[i].code) else None
  }

  /** A name is looked up in the numeric table first, then in the boolean table, then in the string table. */
  lemma CodeFromNameOrder(db: Database, name: string)
    ensures CodeOfName(SearchOrder(db), name) ==
      if FirstCodeByName(db.numerics, name).Some? then FirstCodeByName(db.numerics, name)
      else if FirstCodeByName(db.booleans, name).Some? then FirstCodeByName(db.booleans, name)
      else FirstCodeByName(db.strings, name)
  {
    var n, b, s := NameCodes(db.numerics), NameCodes(db.booleans), NameCodes(db.strings);
    assert SearchOrder(db) == n + (b + s);
    CodeOfNameConcat(n, b + s, name);
    CodeOfNameConcat(b, s, name);
    assert FirstCodeByName(db.numerics, name) == CodeOfName(n, name);
    assert FirstCodeByName(db.booleans, name) == CodeOfName(b, name);
    assert FirstCodeByName(db.strings, name) == CodeOfName(s, name);
  }

  /** Index of the first entry of a table with the given name. */
  function IndexOfKeyName<T>(table: seq<Cap<T>>, name: string): (i: nat)
    ensures i <= |table|
    ensures i < |table| ==> table[i].name == name
    ensures forall j :: 0 <= j < i ==> table[j].name != name
  {
    if table == [] then 0
    else if table[0].name == name then 0
    else 1 + IndexOfKeyName(table[1..], name)
  }

  lemma IndexOfKeyNameIsIndexOfName<T>(table: seq<Cap<T>>, name: string)
    ensures IndexOfName(NameCodes(table), name) == IndexOfKeyName(table, name)
  {
  }

  // ---------------------------------------------------------------------------
  // Sorting by name

  predicate SortedByName<T>(s: seq<Cap<T>>)
  {
    forall i, j :: 0 <= i < j < |s| ==> StrLe(s[i].name, s[j].name)
  }

  /** c inserted before the first entry whose name is not smaller. */
  function InsertByName<T>(c: Cap<T>, s: seq<Cap<T>>): (r: seq<Cap<T>>)
    requires SortedByName(s)
    ensures SortedByName(r)
    ensures multiset(r) == multiset(s) + multiset{c}
    ensures |r| == |s| + 1
  {
    if s == [] then [c]
    else if StrLe(c.name, s[0].name) then
      InsertFrontSorted(c, s);
      [c] + s
    else
      var rest := InsertByName(c, s[1..]);
      StrLessTrichotomy(c.name, s[0].name);
      assert s == [s[0]] + s[1..];
      InsertBehindSorted(s[0], c, s[1..], rest);
      [s[0]] + rest
  }

  lemma InsertFrontSorted<T>(c: Cap<T>, s: seq<Cap<T>>)
    requires SortedByName(s) && s != [] && StrLe(c.name, s[0].name)
    ensures SortedByName([c] + s)
  {
    forall j | 0 < j < |s| + 1
      ensures StrLe(c.name, ([c] + s)[j].name)
    {
      if StrLess(c.name, s[0].name) && StrLess(s[0].name, s[j - 1].name) {
        StrLessTransitive(c.name, s[0].name, s[j - 1].name);
      }
    }
  }

  lemma InsertBehindSorted<T>(h: Cap<T>, c: Cap<T>, tail: seq<Cap<T>>, rest: seq<Cap<T>>)
    requires SortedByName([h] + tail) && SortedByName(rest)
    requires StrLess(h.name, c.name)
    requires multiset(rest) == multiset(tail) + multiset{c}
    ensures SortedByName([h] + rest)
  {
    forall j | 0 <= j < |rest|
      ensures StrLe(h.name, rest[j].name)
    {
      assert rest[j] in multiset(rest);
      assert ([h] + tail)[0] == h;
      if rest[j] != c {
        assert rest[j] in multiset(tail);
        var k :| 0 <= k < |tail| && tail[k] == rest[j];
        assert ([h] + tail)[k + 1] == tail[k];
      }
    }
  }

  /** `actions::sort` on a table: the entries in name order. */
  function SortByName<T>(s: seq<Cap<T>>): (r: seq<Cap<T>>)
    ensures SortedByName(r)
    ensures multiset(r) == multiset(s)
    ensures |r| == |s|
  {
    if s == [] then []
    else
      assert s == [s[0]] + s[1..];
      InsertByName(s[0], SortByName(s[1..]))
  }

  // ---------------------------------------------------------------------------
  // terminfo()

  const Header: string := "contour-latest|xterm-contour|ContourTTY,\n"

  /** The decimal digits of n. */
  function Digits(n: nat): (r: string)
    ensures |r| >= 1
    ensures forall i :: 0 <= i < |r| ==> '0' <= r[i] <= '9'
  {
    var d := ['0' + (n % 10) as char];
    if n < 10 then d else Digits(n / 10) + d
  }

  /** How an output stream prints an `int`: its decimal digits, after '-' when negative. */
  function IntToDecimal(v: int): (r: string)
    ensures |r| >= 1
    ensures r[0] == '-' <==> v < 0
    ensures forall i :: (if v < 0 then 1 else 0) <= i < |r| ==> '0' <= r[i] <= '9'
  {
    if v < 0 then "-" + Digits(-v) else Digits(v)
  }

  /** Reading decimal digits back. */
  function DigitsValue(s: string): nat
  {
    if s == [] then 0
    else
      var d := s[|s| - 1] as int - '0' as int;
      DigitsValue(s[..|s| - 1]) * 10 + (if 0 <= d < 10 then d else 0)
  }

  /** Reading a printed `int` back. */
  function DecimalValue(s: string): int
  {
    if |s| > 0 && s[0] == '-' then -(DigitsValue(s[1..]) as int) else DigitsValue(s)
  }

  lemma {:induction false} DigitsRoundTrip(n: nat)
    ensures DigitsValue(Digits(n)) == n
  {
    var d := ['0' + (n % 10) as char];
    if n >= 10 {
      DigitsRoundTrip(n / 10);
      var s := Digits(n / 10) + d;
      assert s[..|s| - 1] == Digits(n / 10);
    }
  }

  /** The numeric values print so that they read back. */
  lemma DecimalRoundTrip(v: int)
    ensures DecimalValue(IntToDecimal(v)) == v
  {
    if v < 0 {
      DigitsRoundTrip(-v);
      assert ("-" + Digits(-v))[1..] == Digits(-v);
    } else {
      DigitsRoundTrip(v);
    }
  }

  /** The boolean line: only for a named entry whose value is true. */
  function BooleanLine(c: Cap<bool>): (r: string)
    ensures r != "" <==> c.name != "" && c.value
  {
    if c.name != "" && c.value then "    " + c.name + ",\n" else ""
  }

  /** The numeric line: `name#value`, for a named entry. */
  function NumericLine(c: Cap<int>): (r: string)
    ensures r != "" <==> c.name != ""
  {
    if c.name != "" then "    " + c.name + "#" + IntToDecimal(c.value) + ",\n" else ""
  }

  /** The string line: `name=value`, escaped, for a named entry. */
  function StringLine(escape: string -> string, c: Cap<string>): (r: string)
    ensures r != "" <==> c.name != ""
  {
    if c.name != "" then "    " + c.name + "=" + escape(c.value) + ",\n" else ""
  }

  /** The lines of a table in order. */
  function Section<T>(caps: seq<Cap<T>>, line: Cap<T> -> string): string
  {
    if caps == [] then "" else Section(caps[..|caps| - 1], line) + line(caps[|caps| - 1])
  }

  /** The whole terminfo text. */
  function TerminfoText(db: Database, escape: string -> string): string
  {
    Header
      + Section(SortByName(db.booleans), BooleanLine)
      + Section(SortByName(db.numerics), NumericLine)
      + Section(SortByName(db.strings), c => StringLine(escape, c))
  }

  /** The lines of the entries that render to something. */
  function Rendered<T>(caps: seq<Cap<T>>, line: Cap<T> -> string): (r: seq<Cap<T>>)
    ensures |r| <= |caps|
    ensures forall c :: c in r ==> c in caps && line(c) != ""
    ensures forall c :: c in caps && line(c) != "" ==> c in r
  {
    if caps == [] then []
    else
      var last := caps[|caps| - 1];
      Rendered(caps[..|caps| - 1], line) + (if line(last) == "" then [] else [last])
  }

  /** Entries that render to nothing (an empty name, or a false boolean) leave no trace in a section. */
  lemma {:induction false} SectionSkipsUnrendered<T>(caps: seq<Cap<T>>, line: Cap<T> -> string)
    ensures Section(caps, line) == Section(Rendered(caps, line), line)
  {
    if caps != [] {
      var init, last := caps[..|caps| - 1], caps[|caps| - 1];
      SectionSkipsUnrendered(init, line);
      var r := Rendered(init, line);
      if line(last) != "" {
        assert (r + [last])[..|r|] == r;
      } else {
        assert r + [] == r;
      }
    }
  }

  /** Every entry with an empty name is absent from each rendered section. */
  lemma EmptyNamesNeverRendered(db: Database, escape: string -> string)
    ensures forall c :: c in Rendered(SortByName(db.booleans), BooleanLine) ==> c.name != ""
    ensures forall c :: c in Rendered(SortByName(db.numerics), NumericLine) ==> c.name != ""
    ensures forall c :: c in Rendered(SortByName(db.strings), (c: Cap<string>) => StringLine(escape, c)) ==> c.name != ""
    ensures forall c :: c in Rendered(SortByName(db.booleans), BooleanLine) ==> c.value
  {
  }

  /** A section over one more entry ends with that entry's line. */
  lemma SectionStep<T>(caps: seq<Cap<T>>, i: nat, line: Cap<T> -> string)
    requires i < |caps|
    ensures Section(caps[..i + 1], line) == Section(caps[..i], line) + line(caps[i])
  {
    assert caps[..i + 1][..i] == caps[..i];
  }

  /** `terminfo()`: the header, then the sorted boolean, numeric and string sections. */
  method Terminfo(db: Database, escape: string -> string) returns (out: string)
    ensures out == TerminfoText(db, escape)
  {
    var booleans := BooleanSection(SortByName(db.booleans));
    var numbers := NumericSection(SortByName(db.numerics));
    var strings := StringSection(SortByName(db.strings), escape);
    out := Header + booleans + numbers + strings;
  }

  /** The boolean loop of `terminfo()`: a `name,` line per set, named entry. */
  method BooleanSection(caps: seq<Cap<bool>>) returns (out: string)
    ensures out == Section(caps, BooleanLine)
  {
    out := "";
    for i := 0 to |caps|
      invariant out == Section(caps[..i], BooleanLine)
    {
      var cap := caps[i];
      SectionStep(caps, i, BooleanLine);
      if cap.name != "" && cap.value {
        out := out + ("    " + cap.name + ",\n");
      }
    }
    assert caps[..|caps|] == caps;
  }

  /** The numeric loop of `terminfo()`: a `name#value` line per named entry. */
  method NumericSection(caps: seq<Cap<int>>) returns (out: string)
    ensures out == Section(caps, NumericLine)
  {
    out := "";
    for i := 0 to |caps|
      invariant out == Section(caps[..i], NumericLine)
    {
      var cap := caps[i];
      SectionStep(caps, i, NumericLine);
      if cap.name != "" {
        var value := IntToDecimal(cap.value);
        out := out + ("    " + cap.name + "#" + value + ",\n");
      }
    }
    assert caps[..|caps|] == caps;
  }

  /** The string loop of `terminfo()`: a `name=value` line per named entry, escaped. */
  method StringSection(caps: seq<Cap<string>>, escape: string -> string) returns (out: string)
    ensures out == Section(caps, c => StringLine(escape, c))
  {
    ghost var line := (c: Cap<string>) => StringLine(escape, c);
    out := "";
    for i := 0 to |caps|
      invariant out == Section(caps[..i], line)
    {
      var cap := caps[i];
      SectionStep(caps, i, line);
      if cap.name != "" {
        out := out + ("    " + cap.name + "=" + escape(cap.value) + ",\n");
      }
    }
    assert caps[..|caps|] == caps;
  }

  // ---------------------------------------------------------------------------
  // The tables

  const BooleanCaps: seq<Cap<bool>> := [
    Cap(Code("Su"), "Su", true), Cap(Code("am"), "am", true), Cap(Code("ut"), "bce", true),
    Cap(Code("cc"), "ccc", true), Cap(Code("xn"), "xenl", true), Cap(Code("km"), "km", true),
    Cap(Code("mi"), "mir", true), Cap(Code("ms"), "msgr", true), Cap(Code("NP"), "npc", true),
    Cap(Code("5i"), "mc5i", true), Cap(Code("YD"), "xvpa", true), Cap(Code("Tc"), "Tc", true)
  ]

  const NumericalCaps: seq<Cap<int>> := [
    Cap(Code("co"), "cols", 80), Cap(Code("it"), "it", 8), Cap(Code("Co"), "colors", 256),
    Cap(Code("pa"), "pairs", 65536)
  ]

  /**
   * Ten rows of the string table, in table order: "TN" (the unnamed entry), "bl", "md" and "bt",
   * the first "kmous" row, the "setrgbf" and "setrgbb" rows without a code, "ka1", the second
   * "kmous" row, and the final "RGB" row without a code.
   */
  const StringCapsExcerpt: seq<Cap<string>> := [
    Cap(Code("TN"), "", "xterm-256color"),
    Cap(Code("bl"), "bel", "^G"),
    Cap(Code("md"), "bold", "\U{1B}[1m"),
    Cap(Code("bt"), "cbt", "\U{1B}[Z"),
    Cap(Code("Km"), "kmous", "\U{1B}[M"),
    Cap(Undefined, "setrgbf", "\U{1B}[38:2:%p1%d:%p2%d:%p3%dm"),
    Cap(Undefined, "setrgbb", "\U{1B}[48:2:%p1%d:%p2%d:%p3%dm"),
    Cap(Code("K1"), "ka1", ""),
    Cap(Code("Km"), "kmous", "\U{1B}[M"),
    Cap(Undefined, "RGB", "8/8/8")
  ]

  const Static: Database := Database(BooleanCaps, NumericalCaps, StringCapsExcerpt)

  /** A boolean lookup in the table above. */
  lemma StaticBooleanLookup()
    ensures ValueByCode(Static.booleans, Code("am"), false)
  {
    assert IndexOfCode(Static.booleans, Code("am")) == 1;
  }

  /** Numeric lookups in the table above, as the unsigned result `numericCapability` returns. */
  lemma StaticNumericLookups()
    ensures ToUnsigned(ValueByCode(Static.numerics, Code("Co"), -1)) == 256
    ensures ToUnsigned(ValueByCode(Static.numerics, Code("zz"), -1)) == NoNumber
  {
    assert IndexOfCode(Static.numerics, Code("Co")) == 2;
  }

  /** A string lookup in the table above. */
  lemma StaticStringLookup()
    ensures ValueByCode(Static.strings, Code("bl"), "") == "^G"
  {
    assert IndexOfCode(Static.strings, Code("bl")) == 1;
  }

  /** `codeFromName` finds a name of the numeric table there. */
  lemma StaticCodeOfNumericName()
    ensures CodeOfName(SearchOrder(Static), "colors") == Some(Code("Co"))
  {
    CodeFromNameOrder(Static, "colors");
    assert IndexOfKeyName(Static.numerics, "colors") == 2;
  }

  /** `codeFromName` finds a boolean name after searching the whole numeric table. */
  lemma StaticCodeOfBooleanName()
    ensures CodeOfName(SearchOrder(Static), "bce") == Some(Code("ut"))
  {
    CodeFromNameOrder(Static, "bce");
    assert IndexOfKeyName(NumericalCaps, "bce") == 4;
    assert FirstCodeByName(NumericalCaps, "bce") == None;
    assert IndexOfKeyName(BooleanCaps, "bce") == 2;
    assert FirstCodeByName(BooleanCaps, "bce") == Some(Code("ut"));
  }
}
