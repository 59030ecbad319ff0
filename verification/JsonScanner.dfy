/**
  The scan of an encoded document before it is deserialised, as code, and the JSON trees
  it is about: trees of tokens, strings, arrays and objects in the grammar of RFC 8259,
  with any insignificant whitespace. The scan accepts a printed tree exactly when the
  tree's own value count and nesting depth are within the limits.
 */
module JsonScanner {
  import opened Basics
  import opened JsonLexis

  /** scan_string from the byte after the opening quote. */
  method ScanString(bytes: Bytes, start: nat) returns (end: Option<nat>)
    requires start < |bytes|
    ensures match AfterString(bytes[start + 1..], false)
            case None => end == None
            case Some(rest) => end.Some? && start < end.value <= |bytes| && rest == bytes[end.value..]
  {
    var index := start + 1;
    var escaped := false;
    while index < |bytes|
      invariant start < index <= |bytes|
      invariant AfterString(bytes[start + 1..], false) == AfterString(bytes[index..], escaped)
    {
      assert bytes[index..][1..] == bytes[index + 1..];
      var b := bytes[index];
      if escaped {
        escaped := false;
      } else if b == BACKSLASH {
        escaped := true;
      } else if b == QUOTE {
        return Some(index + 1);
      }
      index := index + 1;
    }
    end := None;
  }

  method SkipSpaceFrom(bytes: Bytes, start: nat) returns (end: nat)
    requires start <= |bytes|
    ensures start <= end <= |bytes| && SkipSpace(bytes[start..]) == bytes[end..]
  {
    end := start;
    while end < |bytes| && IsSpace(bytes[end])
      invariant start <= end <= |bytes| && SkipSpace(bytes[start..]) == SkipSpace(bytes[end..])
    {
      assert bytes[end..][1..] == bytes[end + 1..];
      end := end + 1;
    }
  }

  method SkipTokenFrom(bytes: Bytes, start: nat) returns (end: nat)
    requires start <= |bytes|
    ensures start <= end <= |bytes| && SkipToken(bytes[start..]) == bytes[end..]
  {
    end := start;
    while end < |bytes| && !IsStop(bytes[end]) && !IsSpace(bytes[end])
      invariant start <= end <= |bytes| && SkipToken(bytes[start..]) == SkipToken(bytes[end..])
    {
      assert bytes[end..][1..] == bytes[end + 1..];
      end := end + 1;
    }
  }

  /** Where the scan stands, or its verdict. */
  datatype Progress = At(index: nat, depth: nat, values: nat) | Done(verdict: Verdict)

  ghost predicate Continues(bytes: Bytes, goal: Verdict, p: Progress, limits: Limits) {
    match p
    case Done(verdict) => goal == verdict
    case At(index, depth, values) => index <= |bytes| && goal == Scan(bytes[index..], depth, values, limits)
  }

  /** The scan of one string. */
  method StepString(bytes: Bytes, index: nat, depth: nat, values: nat, limits: Limits) returns (p: Progress)
    requires index < |bytes| && bytes[index] == QUOTE
    ensures Continues(bytes, Scan(bytes[index..], depth, values, limits), p, limits)
    ensures p.At? ==> index < p.index
  {
    assert bytes[index..][1..] == bytes[index + 1..];
    var end := ScanString(bytes, index);
    if end == None {
      return Done(Broken(JsonSyntax));
    }
    var after := SkipSpaceFrom(bytes, end.value);
    if after < |bytes| && bytes[after] == COLON {
      return At(end.value, depth, values);
    }
    p := if values + 1 > limits.values then Done(Exceeds(JsonValues, values + 1)) else At(end.value, depth, values + 1);
  }

  /** The scan of anything else. */
  method StepOther(bytes: Bytes, index: nat, depth: nat, values: nat, limits: Limits) returns (p: Progress)
    requires index < |bytes| && bytes[index] != QUOTE
    ensures Continues(bytes, Scan(bytes[index..], depth, values, limits), p, limits)
    ensures p.At? ==> index < p.index
  {
    assert bytes[index..][1..] == bytes[index + 1..];
    var b := bytes[index];
    if b == OPEN_BRACE || b == OPEN_BRACKET {
      if values + 1 > limits.values {
        return Done(Exceeds(JsonValues, values + 1));
      }
      if depth + 1 > limits.depth {
        return Done(Exceeds(NestingDepth, depth + 1));
      }
      return At(index + 1, depth + 1, values + 1);
    }
    if b == CLOSE_BRACE || b == CLOSE_BRACKET {
      if depth == 0 {
        return Done(Broken(JsonSyntax));
      }
      return At(index + 1, depth - 1, values);
    }
    if StartsToken(b) {
      if values + 1 > limits.values {
        return Done(Exceeds(JsonValues, values + 1));
      }
      var end := SkipTokenFrom(bytes, index + 1);
      return At(end, depth, values + 1);
    }
    p := At(index + 1, depth, values);
  }

  /**
    scan_before_deserialize, on any bytes: the byte limit goes first, then the encoding, then the byte-order mark;
    past those, a document is accepted exactly when its strings close, its brackets balance and its limits hold.
   */
  method ScanBeforeDeserialize(bytes: Bytes, utf8: bool, limits: Limits) returns (r: Verdict)
    ensures r == Check(bytes, utf8, limits)
    ensures r == Exceeds(EncodedBytes, |bytes|) <==> |bytes| > limits.encodedBytes
    ensures r == Broken(InvalidUtf8) <==> |bytes| <= limits.encodedBytes && !utf8
    ensures r == Broken(ByteOrderMark) <==> |bytes| <= limits.encodedBytes && utf8 && [0xEF, 0xBB, 0xBF] <= bytes
    ensures r == Accepted <==> |bytes| <= limits.encodedBytes && utf8 && !([0xEF, 0xBB, 0xBF] <= bytes)
                               && Acceptable(bytes, limits)
    ensures |bytes| <= limits.encodedBytes && utf8 && !([0xEF, 0xBB, 0xBF] <= bytes) ==> Means(bytes, limits, r)
  {
    ScanDecides(bytes, limits);
    if |bytes| > limits.encodedBytes {
      return Exceeds(EncodedBytes, |bytes|);
    }
    if !utf8 {
      return Broken(InvalidUtf8);
    }
    if StartsWithMark(bytes) {
      return Broken(ByteOrderMark);
    }
    var p := At(0, 0, 0);
    ghost var goal := Scan(bytes, 0, 0, limits);
    assert bytes[0..] == bytes;
    while p.At? && p.index < |bytes|
      invariant Continues(bytes, goal, p, limits)
      decreases if p.At? then 1 + |bytes| - p.index else 0
    {
      if bytes[p.index] == QUOTE {
        p := StepString(bytes, p.index, p.depth, p.values, limits);
      } else {
        p := StepOther(bytes, p.index, p.depth, p.values, limits);
      }
    }
    r := if p.Done? then p.verdict else if p.depth != 0 then Broken(JsonSyntax) else Accepted;
  }

  // The trees.

  /** A byte of a number in the grammar of section 6 of RFC 8259. */
  predicate OfNumber(b: byte) {
    0x30 <= b <= 0x39 || b == 0x2B || b == 0x2D || b == 0x2E || b == 0x45 || b == 0x65
  }

  /** Every number is a token, and so are the three literal names; the four blanks of the grammar are blank. */
  lemma GrammarIsCovered(text: Bytes, blank: Bytes)
    ensures (text != [] && (text[0] == 0x2D || 0x30 <= text[0] <= 0x39)
             && (forall i :: 0 <= i < |text| ==> OfNumber(text[i]))) ==> ValidToken(text)
    ensures ValidToken([0x6E, 0x75, 0x6C, 0x6C]) && ValidToken([0x74, 0x72, 0x75, 0x65])
    ensures ValidToken([0x66, 0x61, 0x6C, 0x73, 0x65])
    ensures (forall i :: 0 <= i < |blank| ==>
               blank[i] == 0x20 || blank[i] == 0x09 || blank[i] == 0x0A || blank[i] == 0x0D) ==> Blank(blank)
  {
  }

  /** One character of a string: itself, or a backslash and what it escapes. */
  datatype Unit = Plain(b: byte) | Escape(b: byte)

  datatype Json =
    | Token(text: Bytes)
    | Text(units: seq<Unit>)
    | Array(blank: Bytes, elements: Elements)
    | Object(blank: Bytes, members: Members)

  datatype Elements = NoElement | Element(before: Bytes, value: Json, after: Bytes, rest: Elements)

  datatype Members =
    | NoMember
    | Member(lead: Bytes, name: seq<Unit>, gap: Bytes, before: Bytes, value: Json, after: Bytes, rest: Members)

  predicate Blank(s: Bytes) {
    forall i :: 0 <= i < |s| ==> IsSpace(s[i])
  }

  predicate ValidUnits(units: seq<Unit>) {
    forall i :: 0 <= i < |units| && units[i].Plain? ==> units[i].b != QUOTE && units[i].b != BACKSLASH
  }

  predicate ValidToken(text: Bytes) {
    && text != [] && StartsToken(text[0])
    && (forall i :: 0 <= i < |text| ==> !IsStop(text[i]) && !IsSpace(text[i]))
  }

  predicate Valid(v: Json) {
    match v
    case Token(text) => ValidToken(text)
    case Text(units) => ValidUnits(units)
    case Array(blank, elements) => Blank(blank) && ValidElements(elements)
    case Object(blank, members) => Blank(blank) && ValidMembers(members)
  }

  predicate ValidElements(e: Elements) {
    match e
    case NoElement => true
    case Element(before, value, after, rest) => Blank(before) && Valid(value) && Blank(after) && ValidElements(rest)
  }

  predicate ValidMembers(m: Members) {
    match m
    case NoMember => true
    case Member(lead, name, gap, before, value, after, rest) =>
      Blank(lead) && ValidUnits(name) && Blank(gap) && Blank(before) && Valid(value) && Blank(after) && ValidMembers(rest)
  }

  function PrintUnit(unit: Unit): Bytes {
    if unit.Plain? then [unit.b] else [BACKSLASH, unit.b]
  }

  function PrintUnits(units: seq<Unit>): Bytes {
    if units == [] then [] else PrintUnit(units[0]) + PrintUnits(units[1..])
  }

  function PrintString(units: seq<Unit>): Bytes {
    [QUOTE] + (PrintUnits(units) + [QUOTE])
  }

  function Print(v: Json): Bytes {
    match v
    case Token(text) => text
    case Text(units) => PrintString(units)
    case Array(blank, elements) => [OPEN_BRACKET] + (blank + (PrintElements(elements) + [CLOSE_BRACKET]))
    case Object(blank, members) => [OPEN_BRACE] + (blank + (PrintMembers(members) + [CLOSE_BRACE]))
  }

  function PrintElements(e: Elements): Bytes {
    match e
    case NoElement => []
    case Element(before, value, after, rest) =>
      before + (Print(value) + (after + if rest.NoElement? then [] else [COMMA] + PrintElements(rest)))
  }

  function PrintMembers(m: Members): Bytes {
    match m
    case NoMember => []
    case Member(lead, name, gap, before, value, after, rest) =>
      lead + (PrintString(name) + (gap + ([COLON] + (before + (Print(value)
      + (after + if rest.NoMember? then [] else [COMMA] + PrintMembers(rest)))))))
  }

  /** The number of values in the tree; member names are not values. */
  function Count(v: Json): (n: nat)
    ensures n >= 1
  {
    match v
    case Token(_) => 1
    case Text(_) => 1
    case Array(_, elements) => 1 + CountElements(elements)
    case Object(_, members) => 1 + CountMembers(members)
  }

  function CountElements(e: Elements): nat {
    match e
    case NoElement => 0
    case Element(_, value, _, rest) => Count(value) + CountElements(rest)
  }

  function CountMembers(m: Members): nat {
    match m
    case NoMember => 0
    case Member(_, _, _, _, value, _, rest) => Count(value) + CountMembers(rest)
  }

  function Max(a: nat, b: nat): nat {
    if a < b then b else a
  }

  /** How many arrays and objects are open at the deepest point. */
  function Depth(v: Json): nat {
    match v
    case Token(_) => 0
    case Text(_) => 0
    case Array(_, elements) => 1 + DepthElements(elements)
    case Object(_, members) => 1 + DepthMembers(members)
  }

  function DepthElements(e: Elements): nat {
    match e
    case NoElement => 0
    case Element(_, value, _, rest) => Max(Depth(value), DepthElements(rest))
  }

  function DepthMembers(m: Members): nat {
    match m
    case NoMember => 0
    case Member(_, _, _, _, value, _, rest) => Max(Depth(value), DepthMembers(rest))
  }

  // Scanning what was printed.

  /** What may follow a value: blanks, and then the end, a comma or a closing bracket. */
  predicate Ends(rest: Bytes) {
    var after := SkipSpace(rest);
    after == [] || IsStop(after[0])
  }

  lemma {:induction false} SkipBlank(blank: Bytes, rest: Bytes)
    requires Blank(blank)
    ensures SkipSpace(blank + rest) == SkipSpace(rest)
  {
    if blank == [] {
      assert blank + rest == rest;
    } else {
      assert (blank + rest)[1..] == blank[1..] + rest;
      SkipBlank(blank[1..], rest);
    }
  }

  lemma {:induction false} ScanBlank(blank: Bytes, rest: Bytes, depth: nat, values: nat, limits: Limits)
    requires Blank(blank)
    ensures Scan(blank + rest, depth, values, limits) == Scan(rest, depth, values, limits)
  {
    if blank == [] {
      assert blank + rest == rest;
    } else {
      assert (blank + rest)[1..] == blank[1..] + rest;
      ScanBlank(blank[1..], rest, depth, values, limits);
    }
  }

  /** One printed character never closes the string. */
  lemma UnitInside(unit: Unit, tail: Bytes)
    requires unit.Plain? ==> unit.b != QUOTE && unit.b != BACKSLASH
    ensures AfterString(PrintUnit(unit) + tail, false) == AfterString(tail, false)
  {
    var s := PrintUnit(unit) + tail;
    if unit.Plain? {
      assert s[1..] == tail;
    } else {
      assert s[1..][1..] == tail;
    }
  }

  lemma QuoteCloses(rest: Bytes)
    ensures AfterString([QUOTE] + rest, false) == Some(rest)
  {
    assert ([QUOTE] + rest)[1..] == rest;
  }

  lemma UnitsUnfold(units: seq<Unit>, tail: Bytes)
    requires units != []
    ensures PrintUnits(units) + tail == PrintUnit(units[0]) + (PrintUnits(units[1..]) + tail)
  {
  }

  /** A printed string goes on until its own closing quote. */
  lemma {:induction false} UnitsInside(units: seq<Unit>, tail: Bytes)
    requires ValidUnits(units)
    ensures AfterString(PrintUnits(units) + tail, false) == AfterString(tail, false)
  {
    if units == [] {
      assert PrintUnits(units) + tail == tail;
    } else {
      UnitsUnfold(units, tail);
      UnitInside(units[0], PrintUnits(units[1..]) + tail);
      UnitsInside(units[1..], tail);
    }
  }

  /** The closing quote of a printed string is its first unescaped quote. */
  lemma StringCloses(units: seq<Unit>, rest: Bytes)
    requires ValidUnits(units)
    ensures AfterString(PrintUnits(units) + ([QUOTE] + rest), false) == Some(rest)
  {
    UnitsInside(units, [QUOTE] + rest);
    QuoteCloses(rest);
  }

  lemma {:induction false} TokenEnds(text: Bytes, rest: Bytes)
    requires forall i :: 0 <= i < |text| ==> !IsStop(text[i]) && !IsSpace(text[i])
    requires Ends(rest)
    ensures SkipToken(text + rest) == rest
  {
    if text == [] {
      assert text + rest == rest;
    } else {
      assert (text + rest)[1..] == text[1..] + rest;
      TokenEnds(text[1..], rest);
    }
  }

  /** A member name leaves the count alone. */
  lemma ScanName(name: seq<Unit>, rest: Bytes, depth: nat, values: nat, limits: Limits)
    requires ValidUnits(name) && NamesMember(rest)
    ensures Scan(PrintString(name) + rest, depth, values, limits) == Scan(rest, depth, values, limits)
  {
    var s := PrintString(name) + rest;
    StringCloses(name, rest);
    assert s[1..] == PrintUnits(name) + ([QUOTE] + rest);
  }

  predicate Fits(limits: Limits, depth: nat, values: nat, count: nat, height: nat) {
    values + count <= limits.values && depth + height <= limits.depth
  }

  /** What the scan makes of a part with this many values and this height, with rest after it. */
  ghost predicate Passes(s: Bytes, rest: Bytes, depth: nat, values: nat, count: nat, height: nat, limits: Limits) {
    if Fits(limits, depth, values, count, height)
    then Scan(s, depth, values, limits) == Scan(rest, depth, values + count, limits)
    else Scan(s, depth, values, limits).Exceeds?
  }

  lemma ScanText(units: seq<Unit>, rest: Bytes, depth: nat, values: nat, limits: Limits)
    requires ValidUnits(units) && Ends(rest) && Fits(limits, depth, values, 0, 0)
    ensures Passes(PrintString(units) + rest, rest, depth, values, 1, 0, limits)
  {
    var s := PrintString(units) + rest;
    StringCloses(units, rest);
    assert s[1..] == PrintUnits(units) + ([QUOTE] + rest);
  }

  lemma ScanToken(text: Bytes, rest: Bytes, depth: nat, values: nat, limits: Limits)
    requires ValidToken(text) && Ends(rest) && Fits(limits, depth, values, 0, 0)
    ensures Passes(text + rest, rest, depth, values, 1, 0, limits)
  {
    assert (text + rest)[1..] == text[1..] + rest;
    TokenEnds(text[1..], rest);
  }

  /** An array or object around a part that passes one level deeper. */
  lemma ScanEnclosed(open: byte, blank: Bytes, inside: Bytes, close: byte, rest: Bytes, depth: nat, values: nat,
                     count: nat, height: nat, limits: Limits)
    requires Blank(blank) && Fits(limits, depth, values, 0, 0)
    requires (open == OPEN_BRACKET && close == CLOSE_BRACKET) || (open == OPEN_BRACE && close == CLOSE_BRACE)
    requires Fits(limits, depth, values, 1, 1) ==>
               Passes(inside + ([close] + rest), [close] + rest, depth + 1, values + 1, count, height, limits)
    ensures Passes([open] + (blank + (inside + [close])) + rest, rest, depth, values, 1 + count, 1 + height, limits)
  {
    var s := [open] + (blank + (inside + [close])) + rest;
    assert s[0] == open && s[1..] == blank + (inside + ([close] + rest));
    if Fits(limits, depth, values, 1, 1) {
      ScanBlank(blank, inside + ([close] + rest), depth + 1, values + 1, limits);
      assert ([close] + rest)[1..] == rest;
    }
  }

  lemma {:induction false} ScanValue(v: Json, rest: Bytes, depth: nat, values: nat, limits: Limits)
    requires Valid(v) && Ends(rest) && Fits(limits, depth, values, 0, 0)
    ensures Passes(Print(v) + rest, rest, depth, values, Count(v), Depth(v), limits)
    decreases v, 0
  {
    match v {
      case Token(text) => ScanToken(text, rest, depth, values, limits);
      case Text(units) => ScanText(units, rest, depth, values, limits);
      case Array(blank, elements) =>
        var inside := PrintElements(elements);
        if Fits(limits, depth, values, 1, 1) {
          ScanElements(elements, [CLOSE_BRACKET] + rest, depth + 1, values + 1, limits);
        }
        ScanEnclosed(OPEN_BRACKET, blank, inside, CLOSE_BRACKET, rest, depth, values,
                     CountElements(elements), DepthElements(elements), limits);
      case Object(blank, members) =>
        var inside := PrintMembers(members);
        if Fits(limits, depth, values, 1, 1) {
          ScanMembers(members, [CLOSE_BRACE] + rest, depth + 1, values + 1, limits);
        }
        ScanEnclosed(OPEN_BRACE, blank, inside, CLOSE_BRACE, rest, depth, values,
                     CountMembers(members), DepthMembers(members), limits);
    }
  }

  /** The rest of a list after one of its values: nothing, or a comma and more. */
  lemma SeparatorEnds(after: Bytes, more: Bytes, rest: Bytes)
    requires Blank(after) && Ends(rest) && (more == [] || more[0] == COMMA)
    ensures Ends(after + (more + rest))
  {
    SkipBlank(after, more + rest);
    if more == [] {
      assert more + rest == rest;
    }
  }

  lemma SpacedUnfold(before: Bytes, printed: Bytes, after: Bytes, more: Bytes, rest: Bytes)
    ensures before + (printed + (after + more)) + rest == before + (printed + (after + (more + rest)))
  {
  }

  /** One spaced value, then what remains of its list. */
  lemma {:induction false} ScanSpaced(before: Bytes, v: Json, after: Bytes, more: Bytes, rest: Bytes, depth: nat,
                                      values: nat, limits: Limits)
    requires Blank(before) && Valid(v) && Blank(after) && Ends(rest) && Fits(limits, depth, values, 0, 0)
    requires more == [] || more[0] == COMMA
    ensures Passes(before + (Print(v) + (after + more)) + rest, more + rest, depth, values, Count(v), Depth(v), limits)
    decreases v, 1
  {
    var tail := after + (more + rest);
    SpacedUnfold(before, Print(v), after, more, rest);
    ScanBlank(before, Print(v) + tail, depth, values, limits);
    SeparatorEnds(after, more, rest);
    ScanValue(v, tail, depth, values, limits);
    if Fits(limits, depth, values, Count(v), Depth(v)) {
      ScanBlank(after, more + rest, depth, values + Count(v), limits);
    }
  }

  lemma ScanComma(s: Bytes, depth: nat, values: nat, limits: Limits)
    ensures Scan([COMMA] + s, depth, values, limits) == Scan(s, depth, values, limits)
  {
    assert ([COMMA] + s)[1..] == s;
  }

  /** One part after another. */
  lemma PassesTwice(s: Bytes, middle: Bytes, rest: Bytes, depth: nat, values: nat, c: nat, h: nat, d: nat, k: nat,
                    limits: Limits)
    requires Passes(s, middle, depth, values, c, h, limits)
    requires Fits(limits, depth, values, c, h) ==> Passes(middle, rest, depth, values + c, d, k, limits)
    ensures Passes(s, rest, depth, values, c + d, Max(h, k), limits)
  {
  }

  lemma {:induction false} ScanElements(e: Elements, rest: Bytes, depth: nat, values: nat, limits: Limits)
    requires ValidElements(e) && Ends(rest) && Fits(limits, depth, values, 0, 0)
    ensures Passes(PrintElements(e) + rest, rest, depth, values, CountElements(e), DepthElements(e), limits)
    decreases e, 0
  {
    match e {
      case NoElement => assert PrintElements(e) + rest == rest;
      case Element(before, value, after, others) =>
        var more := if others.NoElement? then [] else [COMMA] + PrintElements(others);
        ScanSpaced(before, value, after, more, rest, depth, values, limits);
        var c, h := Count(value), Depth(value);
        if Fits(limits, depth, values, c, h) {
          ScanElements(others, rest, depth, values + c, limits);
          if others.NoElement? {
            assert more + rest == PrintElements(others) + rest;
          } else {
            assert more + rest == [COMMA] + (PrintElements(others) + rest);
            ScanComma(PrintElements(others) + rest, depth, values + c, limits);
          }
        }
        PassesTwice(PrintElements(e) + rest, more + rest, rest, depth, values, c, h,
                    CountElements(others), DepthElements(others), limits);
    }
  }

  /** A member's name and colon, up to its value. */
  lemma ScanMemberName(lead: Bytes, name: seq<Unit>, gap: Bytes, s: Bytes, depth: nat, values: nat, limits: Limits)
    requires Blank(lead) && ValidUnits(name) && Blank(gap)
    ensures Scan(lead + (PrintString(name) + (gap + ([COLON] + s))), depth, values, limits)
            == Scan(s, depth, values, limits)
  {
    ScanBlank(lead, PrintString(name) + (gap + ([COLON] + s)), depth, values, limits);
    SkipBlank(gap, [COLON] + s);
    ScanName(name, gap + ([COLON] + s), depth, values, limits);
    ScanBlank(gap, [COLON] + s, depth, values, limits);
    assert ([COLON] + s)[1..] == s;
  }

  function MoreMembers(m: Members): Bytes {
    if m.NoMember? then [] else [COMMA] + PrintMembers(m)
  }

  /** A printed member list is its first name and the spaced value with what remains. */
  lemma MembersUnfold(m: Members, rest: Bytes)
    requires m.Member?
    ensures PrintMembers(m) + rest
            == m.lead + (PrintString(m.name) + (m.gap + ([COLON]
               + (m.before + (Print(m.value) + (m.after + MoreMembers(m.rest))) + rest))))
  {
  }

  lemma {:induction false} ScanMoreMembers(m: Members, rest: Bytes, depth: nat, values: nat, limits: Limits)
    requires ValidMembers(m) && Ends(rest) && Fits(limits, depth, values, 0, 0)
    ensures Passes(MoreMembers(m) + rest, rest, depth, values, CountMembers(m), DepthMembers(m), limits)
    decreases m, 1
  {
    ScanMembers(m, rest, depth, values, limits);
    if m.NoMember? {
      assert MoreMembers(m) + rest == PrintMembers(m) + rest;
    } else {
      assert MoreMembers(m) + rest == [COMMA] + (PrintMembers(m) + rest);
      ScanComma(PrintMembers(m) + rest, depth, values, limits);
    }
  }

  /** The first member, up to what remains of the list. */
  lemma {:induction false} ScanFirstMember(m: Members, rest: Bytes, depth: nat, values: nat, limits: Limits)
    requires m.Member? && ValidMembers(m) && Ends(rest) && Fits(limits, depth, values, 0, 0)
    ensures Passes(PrintMembers(m) + rest, MoreMembers(m.rest) + rest, depth, values, Count(m.value), Depth(m.value),
                   limits)
    decreases m.value, 2
  {
    var spaced := m.before + (Print(m.value) + (m.after + MoreMembers(m.rest))) + rest;
    MembersUnfold(m, rest);
    ScanMemberName(m.lead, m.name, m.gap, spaced, depth, values, limits);
    ScanSpaced(m.before, m.value, m.after, MoreMembers(m.rest), rest, depth, values, limits);
  }

  lemma {:induction false} ScanMembers(m: Members, rest: Bytes, depth: nat, values: nat, limits: Limits)
    requires ValidMembers(m) && Ends(rest) && Fits(limits, depth, values, 0, 0)
    ensures Passes(PrintMembers(m) + rest, rest, depth, values, CountMembers(m), DepthMembers(m), limits)
    decreases m, 0
  {
    match m {
      case NoMember => assert PrintMembers(m) + rest == rest;
      case Member(lead, name, gap, before, value, after, others) =>
        var more := MoreMembers(others);
        ScanFirstMember(m, rest, depth, values, limits);
        if Fits(limits, depth, values, Count(value), Depth(value)) {
          ScanMoreMembers(others, rest, depth, values + Count(value), limits);
        }
        PassesTwice(PrintMembers(m) + rest, more + rest, rest, depth, values, Count(value), Depth(value),
                    CountMembers(others), DepthMembers(others), limits);
    }
  }

  lemma PrintedStart(v: Json)
    requires Valid(v)
    ensures Print(v) != [] && Print(v)[0] < 0x80
  {
  }

  /**
    The scan agrees with the tree: a document within the byte limit is accepted exactly when its value count
    and its nesting depth are within theirs, and is otherwise refused for a limit, never as malformed.
   */
  lemma ScannerAgreesWithTree(before: Bytes, v: Json, after: Bytes, limits: Limits)
    requires Blank(before) && Valid(v) && Blank(after)
    requires |before + (Print(v) + after)| <= limits.encodedBytes
    ensures Check(before + (Print(v) + after), true, limits) == Accepted
            <==> Count(v) <= limits.values && Depth(v) <= limits.depth
    ensures Check(before + (Print(v) + after), true, limits) != Accepted
            ==> Check(before + (Print(v) + after), true, limits).Exceeds?
  {
    var s := before + (Print(v) + after);
    PrintedStart(v);
    assert s[0] < 0x80;
    ScanSpaced(before, v, after, [], [], 0, 0, limits);
    assert before + (Print(v) + (after + [])) + [] == s;
    assert Scan([], 0, Count(v), limits) == Accepted;
  }
}
