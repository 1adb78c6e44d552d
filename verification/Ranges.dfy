/** HTTP `Range` headers (api/ranges.py; section 14.1.2 of RFC 9110). Python's `int(str)` is
    a parameter; header text is latin-1, as servers decode it. */
module Ranges {
  import opened Wrappers

  datatype Outcome =
    | Whole            // send the full representation
    | Unsatisfiable    // answer with 416
    | Part(start: int, end: int)

  type ParseInt = string -> Option<int>

  // ----- the string operations it uses

  predicate IsSpace(c: char) {
    c == ' ' || ('\t' <= c <= '\r') || (28 as char <= c <= 31 as char) || c == 133 as char || c == 160 as char
  }

  function StripLeft(s: string): string {
    if s != [] && IsSpace(s[0]) then StripLeft(s[1..]) else s
  }

  function StripRight(s: string): string {
    if s != [] && IsSpace(s[|s| - 1]) then StripRight(s[..|s| - 1]) else s
  }

  function Strip(s: string): string {
    StripRight(StripLeft(s))
  }

  function Lower(s: string): string {
    seq(|s|, k requires 0 <= k < |s| => if 'A' <= s[k] <= 'Z' then (s[k] as int + 32) as char else s[k])
  }

  /** Index of the first c, or the length. */
  function Find(s: string, c: char): (i: nat)
    ensures i <= |s| && (i < |s| ==> s[i] == c) && forall k :: 0 <= k < i ==> s[k] != c
  {
    if s == [] then 0 else if s[0] == c then 0 else 1 + Find(s[1..], c)
  }

  /** `str.partition`: before, found, after. */
  function Partition(s: string, c: char): (string, bool, string) {
    var i := Find(s, c);
    if i < |s| then (s[..i], true, s[i + 1..]) else (s, false, "")
  }

  function ParseRange(header: Option<string>, size: nat, parse: ParseInt): Outcome {
    if header.None? || header.value == "" then Whole
    else
      var (unit, _, spec) := Partition(header.value, '=');
      if Lower(Strip(unit)) != "bytes" || Strip(spec) == "" then Whole
      else if ',' in spec then Whole
      else
        var (first, found, last) := Partition(Strip(spec), '-');
        if !found then Whole
        else if first == "" then SuffixRange(parse(last), size)
        else if parse(first).None? || (last != "" && parse(last).None?) then Whole
        else ClosedRange(parse(first).value, if last != "" then parse(last).value else size - 1, size)
  }

  /** "-N": the final N bytes. */
  function SuffixRange(suffix: Option<int>, size: nat): Outcome {
    if suffix.None? then Whole
    else if suffix.value <= 0 || size == 0 then Unsatisfiable
    else Part(if size - suffix.value > 0 then size - suffix.value else 0, size - 1)
  }

  function ClosedRange(start: int, end: int, size: nat): Outcome {
    if start < 0 || end < start || start >= size then Unsatisfiable
    else Part(start, if end < size - 1 then end else size - 1)
  }

  /** Whatever the header, a range that is returned lies inside the representation. */
  lemma PartsAreInBounds(header: Option<string>, size: nat, parse: ParseInt)
    ensures var o := ParseRange(header, size, parse); o.Part? ==> 0 <= o.start <= o.end < size
  {
  }

  // ----- what a well-formed header selects

  /** What can stand before the first dash of a single range. */
  predicate Before(first: string) {
    ',' !in first && '-' !in first && (first == "" || !IsSpace(first[0]))
  }

  /** What can stand after it: more dashes as well. */
  predicate After(last: string) {
    ',' !in last && (last == "" || !IsSpace(last[|last| - 1]))
  }

  function SpecHeader(first: string, last: string): string {
    "bytes=" + first + "-" + last
  }

  lemma PartitionAt(a: string, c: char, b: string)
    requires c !in a
    ensures Partition(a + [c] + b, c) == (a, true, b)
  {
    var s := a + [c] + b;
    assert s[|a|] == c;
    forall k | 0 <= k < |a| ensures s[k] != c { assert s[k] == a[k]; }
    assert s[..|a|] == a && s[|a| + 1..] == b;
  }

  lemma NothingToStrip(s: string)
    requires s != [] && !IsSpace(s[0]) && !IsSpace(s[|s| - 1])
    ensures Strip(s) == s
  {
  }

  /** Byte i is in the part that is sent. */
  predicate Selects(o: Outcome, i: int) {
    o.Part? && o.start <= i <= o.end
  }

  lemma UnitIsBytes()
    ensures Lower(Strip("bytes")) == "bytes"
  {
    NothingToStrip("bytes");
    hide Strip;
    assert Lower("bytes") == "bytes";
  }

  lemma SpecIsPlain(first: string, last: string)
    requires Before(first) && After(last)
    ensures Strip(first + "-" + last) == first + "-" + last
    ensures ',' !in first + "-" + last
  {
    var spec := first + "-" + last;
    assert spec[0] == if first == "" then '-' else first[0];
    assert spec[|spec| - 1] == if last == "" then '-' else last[|last| - 1];
    NothingToStrip(spec);
    hide Strip;
  }

  /** The header's parts come out as they went in. */
  lemma SpecParts(first: string, last: string)
    requires Before(first) && After(last)
    ensures Partition(SpecHeader(first, last), '=') == ("bytes", true, first + "-" + last)
    ensures Lower(Strip("bytes")) == "bytes" && Strip(first + "-" + last) == first + "-" + last
    ensures ',' !in first + "-" + last && Partition(first + "-" + last, '-') == (first, true, last)
  {
    hide Partition, Strip, Lower;
    var spec := first + "-" + last;
    UnitIsBytes();
    SpecIsPlain(first, last);
    assert SpecHeader(first, last) == "bytes" + ['='] + spec;
    PartitionAt("bytes", '=', spec);
    assert spec == first + ['-'] + last;
    PartitionAt(first, '-', last);
  }

  /** Every single range there is: a text without a comma that holds a dash, stripped, is what stands
      before its first dash, that dash and the rest. */
  lemma EverySpec(spec: string) returns (first: string, last: string)
    requires ',' !in spec && '-' in spec
    ensures Before(first) && After(last) && Strip(spec) == first + "-" + last
  {
    StripKeeps(spec);
    var s := Strip(spec);
    hide Strip;
    var i := Find(s, '-');
    var k :| 0 <= k < |s| && s[k] == '-';
    first, last := s[..i], s[i + 1..];
    assert s == first + "-" + last;
    if last != "" { assert last[|last| - 1] == s[|s| - 1]; }
  }

  /** And is answered like that. */
  lemma SpecAnswer(spec: string, first: string, last: string, size: nat, parse: ParseInt)
    requires ',' !in spec && Before(first) && After(last) && Strip(spec) == first + "-" + last
    ensures ParseRange(Some("bytes=" + spec), size, parse) == ParseRange(Some(SpecHeader(first, last)), size, parse)
  {
    SpecParts(first, last);
    hide Partition, Strip, Lower;
    assert "bytes=" + spec == "bytes" + ['='] + spec;
    PartitionAt("bytes", '=', spec);
  }

  lemma {:induction false} StripRightKeeps(s: string)
    ensures forall c :: c in StripRight(s) ==> c in s
    ensures forall c :: c in s && !IsSpace(c) ==> c in StripRight(s)
    ensures StripRight(s) != "" ==> !IsSpace(StripRight(s)[|StripRight(s)| - 1]) && StripRight(s)[0] == s[0]
  {
    if s != "" && IsSpace(s[|s| - 1]) {
      StripRightKeeps(s[..|s| - 1]);
      assert s == s[..|s| - 1] + [s[|s| - 1]];
    }
  }

  lemma {:induction false} StripLeftKeeps(s: string)
    ensures forall c :: c in StripLeft(s) ==> c in s
    ensures forall c :: c in s && !IsSpace(c) ==> c in StripLeft(s)
    ensures StripLeft(s) != "" ==> !IsSpace(StripLeft(s)[0])
  {
    if s != "" && IsSpace(s[0]) {
      StripLeftKeeps(s[1..]);
      assert s == [s[0]] + s[1..];
    }
  }

  /** Stripping takes spaces away, from the ends only. */
  lemma StripKeeps(s: string)
    ensures forall c :: c in Strip(s) ==> c in s
    ensures forall c :: c in s && !IsSpace(c) ==> c in Strip(s)
    ensures Strip(s) != "" ==> !IsSpace(Strip(s)[0]) && !IsSpace(Strip(s)[|Strip(s)| - 1])
  {
    StripLeftKeeps(s);
    StripRightKeeps(StripLeft(s));
  }

  /** Both sides are numbers to the parser: no first position for a suffix, and no last one for an
      open end. */
  predicate Reads(first: string, last: string, parse: ParseInt) {
    if first == "" then parse(last).Some? else parse(first).Some? && (last == "" || parse(last).Some?)
  }

  /** Numbers that no part of the representation answers to. */
  predicate Refused(first: string, last: string, size: nat, parse: ParseInt)
    requires Reads(first, last, parse)
  {
    if first == "" then parse(last).value <= 0 || size == 0
    else
      || parse(first).value < 0 || parse(first).value >= size
      || (last != "" && parse(last).value < parse(first).value)
  }

  /** The bytes that are asked for. */
  predicate Wanted(first: string, last: string, size: nat, parse: ParseInt, i: int)
    requires Reads(first, last, parse)
  {
    && 0 <= i < size
    && if first == "" then size - parse(last).value <= i
       else parse(first).value <= i && (last == "" || i <= parse(last).value)
  }

  /** The answer to every single range: ignored exactly when a side is no number, refused exactly when
      the numbers select nothing, else exactly the bytes asked for. */
  lemma RangeMeaning(first: string, last: string, size: nat, parse: ParseInt)
    requires Before(first) && After(last)
    ensures var o := ParseRange(Some(SpecHeader(first, last)), size, parse);
      && (o == Whole <==> !Reads(first, last, parse))
      && (o == Unsatisfiable <==> Reads(first, last, parse) && Refused(first, last, size, parse))
      && (o.Part? ==> Reads(first, last, parse)
                      && forall i :: Selects(o, i) <==> Wanted(first, last, size, parse, i))
  {
    SpecParts(first, last);
  }

  // ----- every other header

  /** The spaces of Python's `str.strip` in latin-1: tab to carriage return, the four separators,
      blank, next line and no-break space. */
  lemma SpacesAre(c: char)
    ensures IsSpace(c) <==> c as int in {9, 10, 11, 12, 13, 28, 29, 30, 31, 32, 133, 160}
  {
  }

  predicate Spaces(s: string) {
    forall k :: 0 <= k < |s| ==> IsSpace(s[k])
  }

  lemma {:induction false} StripRightIs(s: string) returns (j: nat)
    ensures j <= |s| && StripRight(s) == s[..j] && Spaces(s[j..]) && (j > 0 ==> !IsSpace(s[j - 1]))
  {
    j := |s|;
    if s != "" && IsSpace(s[|s| - 1]) {
      var shorter := s[..|s| - 1];
      j := StripRightIs(shorter);
      assert shorter[..j] == s[..j] && s[j..] == shorter[j..] + [s[|s| - 1]];
    }
  }

  lemma {:induction false} StripLeftIs(s: string) returns (i: nat)
    ensures i <= |s| && StripLeft(s) == s[i..] && Spaces(s[..i]) && (i < |s| ==> !IsSpace(s[i]))
  {
    i := 0;
    if s != "" && IsSpace(s[0]) {
      var n := StripLeftIs(s[1..]);
      i := n + 1;
      assert s[1..][n..] == s[i..] && s[..i] == [s[0]] + s[1..][..n];
    }
  }

  /** Stripping cuts off the spaces on either side, and all of them. */
  lemma StripIs(s: string) returns (i: nat, j: nat)
    ensures i <= j <= |s| && Strip(s) == s[i..j] && Spaces(s[..i]) && Spaces(s[j..])
    ensures i < j ==> !IsSpace(s[i]) && !IsSpace(s[j - 1])
  {
    i := StripLeftIs(s);
    var n := StripRightIs(s[i..]);
    j := i + n;
    assert s[i..][..n] == s[i..j] && s[i..][n..] == s[j..];
    if n > 0 { assert s[i..][n - 1] == s[j - 1]; }
  }

  /** The unit at i: the five letters in either case, and nothing but spaces around them. */
  predicate BytesAt(unit: string, i: nat) {
    && i + 5 <= |unit| && Spaces(unit[..i]) && Spaces(unit[i + 5..])
    && unit[i] in "bB" && unit[i + 1] in "yY" && unit[i + 2] in "tT" && unit[i + 3] in "eE" && unit[i + 4] in "sS"
  }

  lemma LowerIs(c: char, d: char)
    requires 'a' <= d <= 'z'
    ensures Lower([c])[0] == d <==> c == d || c as int + 32 == d as int
  {
  }

  lemma UnitMeans(unit: string)
    ensures Lower(Strip(unit)) == "bytes" <==> exists i: nat :: BytesAt(unit, i)
  {
    var i, j := StripIs(unit);
    var s := Strip(unit);
    hide Strip;
    if Lower(s) == "bytes" {
      assert |s| == 5 && forall k :: 0 <= k < 5 ==> Lower([s[k]])[0] == "bytes"[k];
      forall k | 0 <= k < 5
        ensures s[k] == unit[i + k] && (s[k] == "bytes"[k] || s[k] as int + 32 == "bytes"[k] as int)
      {
        LowerIs(s[k], "bytes"[k]);
      }
      assert BytesAt(unit, i);
    }
    if n: nat :| BytesAt(unit, n) {
      StripUnit(unit, n, i, j);
      assert forall k :: 0 <= k < 5 ==> s[k] == unit[n + k];
      assert Lower(s) == "bytes";
    }
  }

  lemma StripUnit(unit: string, n: nat, i: nat, j: nat)
    requires BytesAt(unit, n) && i <= j <= |unit| && Spaces(unit[..i]) && Spaces(unit[j..])
    requires i < j ==> !IsSpace(unit[i]) && !IsSpace(unit[j - 1])
    ensures i == n && j == n + 5
  {
  }

  lemma NoDash(s: string)
    ensures Partition(s, '-').1 <==> '-' in s
  {
  }

  /** No header, an empty one and one without an equals sign: the whole representation. */
  lemma NoRange(header: Option<string>, size: nat, parse: ParseInt)
    requires header.Some? ==> '=' !in header.value
    ensures ParseRange(header, size, parse) == Whole
  {
  }

  /** Any other header: the whole representation unless the unit is bytes and what follows the first
      equals sign holds a dash and no comma; then what the single range after "bytes=" is answered with. */
  lemma AnyHeader(unit: string, spec: string, size: nat, parse: ParseInt)
    requires '=' !in unit
    ensures var o := ParseRange(Some(unit + "=" + spec), size, parse);
      if (exists i: nat :: BytesAt(unit, i)) && ',' !in spec && '-' in spec
      then o == ParseRange(Some("bytes=" + spec), size, parse) else o == Whole
  {
    hide Strip, Lower, BytesAt, Partition, SuffixRange, ClosedRange;
    UnitMeans(unit);
    UnitIsBytes();
    StripKeeps(spec);
    assert unit + "=" + spec == unit + ['='] + spec && "bytes=" + spec == "bytes" + ['='] + spec;
    PartitionAt(unit, '=', spec);
    PartitionAt("bytes", '=', spec);
    NoDash(Strip(spec));
  }

  // ----- what the grammar calls malformed

  predicate Digits(s: string) {
    s != "" && forall k :: 0 <= k < |s| ==> '0' <= s[k] <= '9'
  }

  /** The decimal number a text of digits stands for. */
  function Number(s: string): (n: int)
    requires forall k :: 0 <= k < |s| ==> '0' <= s[k] <= '9'
    ensures n >= 0
  {
    if s == "" then 0 else Number(s[..|s| - 1]) * 10 + (s[|s| - 1] as int - '0' as int)
  }

  /** Section 14.1.1 of RFC 9110: digits on both sides of one dash, one side possibly left out, and the
      last position not below the first. */
  predicate Grammatical(first: string, last: string) {
    if first == "" then Digits(last)
    else Digits(first) && (last == "" || (Digits(last) && Number(last) >= Number(first)))
  }

  /** The parser reads plain digits as what they stand for. */
  ghost predicate ReadsDigits(parse: ParseInt) {
    forall s :: Digits(s) ==> parse(s) == Some(Number(s))
  }

  /** A well-formed range is never ignored. A malformed one is, as the docstring has it, exactly when a
      side is no number to the parser; read, it is refused, or served when its numbers select
      something. */
  lemma IgnoredExactlyWhen(first: string, last: string, size: nat, parse: ParseInt)
    requires Before(first) && After(last) && ReadsDigits(parse)
    ensures var o := ParseRange(Some(SpecHeader(first, last)), size, parse);
      && (Grammatical(first, last) ==> o != Whole)
      && (!Grammatical(first, last) ==> (o == Whole <==> !Reads(first, last, parse)))
      && (!Grammatical(first, last) && o.Part? ==>
            (first == "" && !Digits(last)) || !Digits(first) || (last != "" && !Digits(last)))
  {
    RangeMeaning(first, last, size, parse);
    hide ParseRange;
  }

  /** `int(str)` on the text of a header: spaces around, one sign, digits with single underscores
      between them. */
  function PythonInt(s: string): Option<int> {
    var t := Strip(s);
    if t != "" && t[0] == '-' then
      var n := Underscored(t[1..]);
      if n.Some? then Some(-n.value) else None
    else Underscored(if t != "" && t[0] == '+' then t[1..] else t)
  }

  function Underscored(s: string): (n: Option<int>)
    ensures n.Some? ==> n.value >= 0
  {
    if s == "" || !('0' <= s[|s| - 1] <= '9') then None
    else
      var digit := s[|s| - 1] as int - '0' as int;
      var rest := if |s| >= 2 && s[|s| - 2] == '_' then Underscored(s[..|s| - 2])
                  else if |s| == 1 then Some(0) else Underscored(s[..|s| - 1]);
      if rest.Some? then Some(rest.value * 10 + digit) else None
  }

  lemma {:induction false} UnderscoredDigits(s: string)
    requires Digits(s)
    ensures Underscored(s) == Some(Number(s))
  {
    if |s| > 1 { UnderscoredDigits(s[..|s| - 1]); }
  }

  lemma PythonReadsDigits()
    ensures ReadsDigits(PythonInt)
  {
    forall s | Digits(s) ensures PythonInt(s) == Some(Number(s)) {
      NothingToStrip(s);
      UnderscoredDigits(s);
      hide Strip;
    }
  }

  /** Malformed ranges that are not ignored: a second minus sign is refused, a plus sign and an
      underscore are served. */
  lemma MalformedButAnswered(size: nat)
    requires size >= 20
    ensures ParseRange(Some(SpecHeader("", "-5")), size, PythonInt) == Unsatisfiable
    ensures ParseRange(Some(SpecHeader("5", "-3")), size, PythonInt) == Unsatisfiable
    ensures var o := ParseRange(Some(SpecHeader("+1", "1_0")), size, PythonInt);
      o.Part? && forall i :: Selects(o, i) <==> 1 <= i <= 10
    ensures !Grammatical("", "-5") && !Grammatical("5", "-3") && !Grammatical("+1", "1_0")
  {
    hide PythonInt, ParseRange;
    SmallNumbers();
    SuffixMeaning("-5", -5, size, PythonInt);
    ClosedMeaning("5", "-3", 5, -3, size, PythonInt);
    ClosedMeaning("+1", "1_0", 1, 10, size, PythonInt);
    assert "-5"[0] == '-' && "-3"[0] == '-' && "+1"[0] == '+';
  }

  lemma SmallNumbers()
    ensures PythonInt("-5") == Some(-5) && PythonInt("5") == Some(5) && PythonInt("-3") == Some(-3)
    ensures PythonInt("+1") == Some(1) && PythonInt("1_0") == Some(10)
  {
    NothingToStrip("-5");
    NothingToStrip("5");
    NothingToStrip("-3");
    NothingToStrip("+1");
    NothingToStrip("1_0");
    hide Strip;
    assert "-5"[1..] == "5" && "-3"[1..] == "3" && "+1"[1..] == "1" && "1_0"[..1] == "1";
    assert Underscored("5") == Some(5) && Underscored("3") == Some(3) && Underscored("1") == Some(1);
    assert Underscored("1_0") == Some(10);
  }

  // ----- the three forms

  /** "bytes=a-b" selects exactly the bytes from a to b that exist, or is refused. */
  lemma ClosedMeaning(first: string, last: string, a: int, b: int, size: nat, parse: ParseInt)
    requires Before(first) && After(last) && first != "" && last != ""
    requires parse(first) == Some(a) && parse(last) == Some(b)
    ensures var o := ParseRange(Some(SpecHeader(first, last)), size, parse);
      && (o == Unsatisfiable <==> a < 0 || b < a || a >= size)
      && (o != Unsatisfiable ==> o.Part? && forall i :: Selects(o, i) <==> a <= i <= b && 0 <= i < size)
  {
    SpecParts(first, last);
  }

  /** "bytes=a-" selects everything from a on. */
  lemma OpenMeaning(first: string, a: int, size: nat, parse: ParseInt)
    requires Before(first) && first != "" && parse(first) == Some(a)
    ensures var o := ParseRange(Some(SpecHeader(first, "")), size, parse);
      && (o == Unsatisfiable <==> a < 0 || a >= size)
      && (o != Unsatisfiable ==> o.Part? && forall i :: Selects(o, i) <==> a <= i < size)
  {
    SpecParts(first, "");
  }

  /** "bytes=-n" selects the last n bytes, all of them if there are fewer. */
  lemma SuffixMeaning(last: string, n: int, size: nat, parse: ParseInt)
    requires After(last) && parse(last) == Some(n)
    ensures var o := ParseRange(Some(SpecHeader("", last)), size, parse);
      && (o == Unsatisfiable <==> n <= 0 || size == 0)
      && (o != Unsatisfiable ==> o.Part? && forall i :: Selects(o, i) <==> size - n <= i && 0 <= i < size)
  {
    SpecParts("", last);
  }
}
